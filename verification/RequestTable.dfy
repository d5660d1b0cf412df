/** Matching replies to requests: the table, its channels and the threads using them, as a state machine whose steps
    are the atomic operations of the program. Any number of threads, any interleaving, any ids. */
module RequestTable {
  import opened Bytes
  import opened Headers
  import opened Factory

  /** A received message, by the id it relates to and some content. */
  datatype Reply = Reply(relatesTo: MessageId, content: int)

  datatype Outcome = Replied(msg: Reply) | Cancelled | ContextDone | SendFailed

  /** Where a call of Close returns to. */
  datatype Return = ToCaller | ToWait(r: nat, outcome: Outcome, inRequest: bool) | ToRequest(r: nat, outcome: Outcome)

  /** The point a thread is at. A request is named by its number in `State.reqs`. */
  datatype Thread =
    | FeedLoad(msg: Reply)                         // Feed, about to look its request up
    | FeedSend(msg: Reply, to: nat)                // Feed, sending on the channel of the entry it removed
    | CloseLoad(of: nat, ret: Return)              // Close, about to look its own id up
    | CloseChannel(entry: nat, ret: Return)        // Close, closing the channel of the entry it removed
    | Sending(req: nat)                            // RequestReply, its request in the table, sending it
    | Waiting(req: nat, inRequest: bool)           // Wait, in its select
    | Returned(req: nat, result: Outcome, inRequest: bool)
    | Finished

  /** An unbuffered channel and its once-only closing: what happened on it. */
  datatype Channel = Channel(closed: bool, once: bool, sends: nat, closes: nat)

  /** `fed`, `shut` and `lost` are the requests a Feed removed, a Close removed, and a later Put replaced. */
  datatype State = State(
    table: map<MessageId, nat>, reqs: seq<MessageId>, channels: seq<Channel>, threads: seq<Thread>,
    fed: set<nat>, shut: set<nat>, lost: set<nat>, panicked: bool)

  const INITIAL := State(map[], [], [], [], {}, {}, {}, false)
  const OPEN := Channel(false, false, 0, 0)

  datatype Action =
    | Put(id: MessageId)                    // a bare Put
    | StartRequest(id: MessageId)           // RequestReply up to and including its Put
    | StartFeed(msg: Reply)
    | StartClose(of: nat)
    | StartWait(of: nat)
    | Load(t: nat)                          // the LoadAndDelete of a Feed or a Close
    | CloseOnce(t: nat)
    | Sent(t: nat)
    | SendFails(t: nat)
    | ContextEnds(t: nat)
    | Deliver(t: nat, w: nat)               // a send and a receive on one channel
    | ReceiveClosed(t: nat)
    | SendOnClosed(t: nat)

  // ---- the steps ----

  function AddRequest(s: State, id: MessageId): State {
    s.(table := s.table[id := |s.reqs|], reqs := s.reqs + [id], channels := s.channels + [OPEN],
       lost := s.lost + if id in s.table then {s.table[id]} else {})
  }

  function Spawn(s: State, th: Thread): State {
    s.(threads := s.threads + [th])
  }

  function Move(s: State, t: nat, th: Thread): State
    requires t < |s.threads|
  {
    s.(threads := s.threads[t := th])
  }

  /** The point a thread continues at when the Close it called has returned. */
  function Continue(ret: Return): Thread {
    match ret
    case ToCaller => Finished
    case ToWait(r, outcome, inRequest) =>
      if inRequest then CloseLoad(r, ToRequest(r, outcome)) else Returned(r, outcome, false)
    case ToRequest(r, outcome) => Returned(r, outcome, true)
  }

  predicate IsRequest(s: State, r: nat) {
    r < |s.reqs| == |s.channels|
  }

  predicate Enabled(s: State, a: Action) {
    match a
    case Put(_) => true
    case StartRequest(_) => true
    case StartFeed(_) => true
    case StartClose(r) => IsRequest(s, r)
    case StartWait(r) => IsRequest(s, r)
    case Load(t) =>
      t < |s.threads| && (s.threads[t].FeedLoad? || (s.threads[t].CloseLoad? && IsRequest(s, s.threads[t].of)))
    case CloseOnce(t) => t < |s.threads| && s.threads[t].CloseChannel? && IsRequest(s, s.threads[t].entry)
    case Sent(t) => t < |s.threads| && s.threads[t].Sending?
    case SendFails(t) => t < |s.threads| && s.threads[t].Sending?
    case ContextEnds(t) => t < |s.threads| && s.threads[t].Waiting?
    case Deliver(t, w) =>
      && t < |s.threads| && w < |s.threads| && s.threads[t].FeedSend? && s.threads[w].Waiting?
      && s.threads[t].to == s.threads[w].req && IsRequest(s, s.threads[t].to) && !s.channels[s.threads[t].to].closed
    case ReceiveClosed(t) =>
      && t < |s.threads| && s.threads[t].Waiting? && IsRequest(s, s.threads[t].req)
      && s.channels[s.threads[t].req].closed
    case SendOnClosed(t) =>
      && t < |s.threads| && s.threads[t].FeedSend? && IsRequest(s, s.threads[t].to)
      && s.channels[s.threads[t].to].closed
  }

  function LoadAndDelete(s: State, t: nat): State
    requires Enabled(s, Load(t))
  {
    var th := s.threads[t];
    var id := if th.FeedLoad? then th.msg.relatesTo else s.reqs[th.of];
    if th.FeedLoad? && id == EMPTY_ID then Move(s, t, Finished)
    else if id !in s.table then Move(s, t, if th.FeedLoad? then Finished else Continue(th.ret))
    else
      var r := s.table[id];
      var removed := s.(table := s.table - {id});
      if th.FeedLoad? then Move(removed.(fed := s.fed + {r}), t, FeedSend(th.msg, r))
      else Move(removed.(shut := s.shut + {r}), t, CloseChannel(r, th.ret))
  }

  function CloseTheChannel(s: State, t: nat): State
    requires Enabled(s, CloseOnce(t))
  {
    var th := s.threads[t];
    var ch := s.channels[th.entry];
    var done := Move(s, t, Continue(th.ret));
    if ch.once then done
    else done.(channels := s.channels[th.entry := ch.(once := true, closed := true, closes := ch.closes + 1)],
               panicked := s.panicked || ch.closed)
  }

  /** A waiter leaves its select and runs its deferred Close. */
  function LeaveSelect(s: State, w: nat, outcome: Outcome): State
    requires w < |s.threads| && s.threads[w].Waiting?
  {
    var th := s.threads[w];
    Move(s, w, CloseLoad(th.req, ToWait(th.req, outcome, th.inRequest)))
  }

  function Step(s: State, a: Action): State
    requires Enabled(s, a)
  {
    match a
    case Put(id) => AddRequest(s, id)
    case StartRequest(id) => Spawn(AddRequest(s, id), Sending(|s.reqs|))
    case StartFeed(msg) => Spawn(s, FeedLoad(msg))
    case StartClose(r) => Spawn(s, CloseLoad(r, ToCaller))
    case StartWait(r) => Spawn(s, Waiting(r, false))
    case Load(t) => LoadAndDelete(s, t)
    case CloseOnce(t) => CloseTheChannel(s, t)
    case Sent(t) => Move(s, t, Waiting(s.threads[t].req, true))
    case SendFails(t) => Move(s, t, CloseLoad(s.threads[t].req, ToRequest(s.threads[t].req, SendFailed)))
    case ContextEnds(t) => LeaveSelect(s, t, ContextDone)
    case Deliver(t, w) =>
      var r := s.threads[t].to;
      var sent := Move(s, t, Finished).(channels := s.channels[r := s.channels[r].(sends := s.channels[r].sends + 1)]);
      LeaveSelect(sent, w, Replied(s.threads[t].msg))
    case ReceiveClosed(t) => LeaveSelect(s, t, Cancelled)
    case SendOnClosed(t) => s.(panicked := true)
  }

  // ---- the invariant ----

  predicate InTable(s: State, r: nat) {
    r < |s.reqs| && s.reqs[r] in s.table && s.table[s.reqs[r]] == r
  }

  /** Table entries are requests stored under their own id. */
  predicate TableOk(s: State) {
    && |s.channels| == |s.reqs|
    && forall id {:trigger s.table[id]} :: id in s.table ==> s.table[id] < |s.reqs| && s.reqs[s.table[id]] == id
  }

  /** Every request is in exactly one place: in the table, removed by a Feed, removed by a Close, or replaced. */
  ghost predicate Partition(s: State) {
    && s.fed !! s.shut && s.fed !! s.lost && s.shut !! s.lost
    && (forall r {:trigger InTable(s, r)} :: 0 <= r < |s.reqs| ==>
          (InTable(s, r) <==> r !in s.fed && r !in s.shut && r !in s.lost))
    && (forall r :: r in s.fed || r in s.shut || r in s.lost ==> r < |s.reqs|)
  }

  /** A channel carried at most a message, if a Feed removed its request, or at most a close, if a Close did. */
  predicate ChannelOk(s: State, r: nat)
    requires r < |s.channels|
  {
    var ch := s.channels[r];
    && ch.sends <= 1 && ch.closes <= 1
    && (ch.sends == 1 ==> r in s.fed) && (ch.closes == 1 ==> r in s.shut)
    && ch.closed == ch.once == (ch.closes == 1)
  }

  predicate ChannelsOk(s: State) {
    forall r {:trigger s.channels[r]} :: 0 <= r < |s.channels| ==> ChannelOk(s, r)
  }

  /** A reply is for the request it names and went through its channel; a cancellation followed a close. */
  predicate OutcomeOk(s: State, r: nat, outcome: Outcome) {
    && r < |s.reqs| == |s.channels|
    && (outcome.Replied? ==>
          outcome.msg.relatesTo == s.reqs[r] != EMPTY_ID && s.channels[r].sends == 1)
    && (outcome.Cancelled? ==> s.channels[r].closes == 1)
  }

  predicate ReturnOk(s: State, of: nat, ret: Return) {
    match ret
    case ToCaller => true
    case ToWait(r, outcome, _) => r == of && OutcomeOk(s, r, outcome)
    case ToRequest(r, outcome) => r == of && OutcomeOk(s, r, outcome)
  }

  /** After the lookup of its Close, the request of a call is out of the table for good. */
  predicate Gone(s: State, ret: Return) {
    ret.ToCaller? || !InTable(s, ret.r)
  }

  predicate ThreadOk(s: State, th: Thread) {
    match th
    case FeedLoad(_) => true
    case FeedSend(msg, r) =>
      r < |s.reqs| == |s.channels| && r in s.fed && s.channels[r].sends == 0 && s.reqs[r] == msg.relatesTo
      && msg.relatesTo != EMPTY_ID
    case CloseLoad(of, ret) => of < |s.reqs| && ReturnOk(s, of, ret)
    case CloseChannel(r, ret) =>
      r < |s.reqs| == |s.channels| && r in s.shut && s.channels[r].closes == 0
      && (ret.ToCaller? || ReturnOk(s, ret.r, ret)) && Gone(s, ret)
    case Sending(r) => r < |s.reqs|
    case Waiting(r, _) => r < |s.reqs|
    case Returned(r, outcome, _) => OutcomeOk(s, r, outcome) && !InTable(s, r)
    case Finished => true
  }

  predicate ThreadsOk(s: State) {
    forall t {:trigger s.threads[t]} :: 0 <= t < |s.threads| ==> ThreadOk(s, s.threads[t])
  }

  /** The request whose channel a thread is about to use. */
  function Claim(th: Thread): int {
    match th
    case FeedSend(_, r) => r
    case CloseChannel(r, _) => r
    case _ => -1
  }

  /** No two threads are about to use the same channel. */
  predicate ClaimsDistinct(s: State) {
    forall t, u {:trigger s.threads[t], s.threads[u]} :: 0 <= t < u < |s.threads| && Claim(s.threads[t]) >= 0 ==>
      Claim(s.threads[t]) != Claim(s.threads[u])
  }

  ghost predicate Replaced(reqs: seq<MessageId>, r: nat) {
    r < |reqs| && exists q {:trigger reqs[q]} :: r < q < |reqs| && reqs[q] == reqs[r]
  }

  /** Only a later request with the same id replaces one. */
  ghost predicate LostOk(s: State) {
    forall r {:trigger r in s.lost} :: r in s.lost ==> Replaced(s.reqs, r)
  }

  ghost predicate Sound(s: State) {
    TableOk(s) && Partition(s) && ChannelsOk(s) && ThreadsOk(s) && ClaimsDistinct(s) && LostOk(s) && !s.panicked
  }

  function ReplyIn(r: nat, outcome: Outcome): int {
    if outcome.Replied? then r else -1
  }

  /** The request a thread has a reply for, on its way or returned. */
  function RepliedTo(th: Thread): int {
    match th
    case CloseLoad(_, ret) => if ret.ToCaller? then -1 else ReplyIn(ret.r, ret.outcome)
    case CloseChannel(_, ret) => if ret.ToCaller? then -1 else ReplyIn(ret.r, ret.outcome)
    case Returned(r, outcome, _) => ReplyIn(r, outcome)
    case _ => -1
  }

  /** No two threads have a reply for the same request. */
  predicate RepliesDistinct(threads: seq<Thread>) {
    forall t, u {:trigger threads[t], threads[u]} :: 0 <= t < u < |threads| && RepliedTo(threads[t]) >= 0 ==>
      RepliedTo(threads[t]) != RepliedTo(threads[u])
  }

  ghost predicate Inv(s: State) {
    Sound(s) && RepliesDistinct(s.threads)
  }

  /** What every step does to what is already there: nothing is forgotten, and nothing returns to the table. */
  ghost predicate Later(s: State, s': State) {
    && s.reqs <= s'.reqs && |s.channels| <= |s'.channels| == |s'.reqs|
    && s.fed <= s'.fed && s.shut <= s'.shut
    && (forall r {:trigger InTable(s', r)} :: 0 <= r < |s.reqs| && InTable(s', r) ==> InTable(s, r))
    && (forall r {:trigger s'.channels[r]} :: 0 <= r < |s.channels| ==>
          (s.channels[r].sends == 1 ==> s'.channels[r].sends == 1)
          && (s.channels[r].closes == 1 ==> s'.channels[r].closes == 1))
  }

  lemma ChannelsKeep(s: State, s': State)
    requires ChannelsOk(s) && s'.channels == s.channels && s.fed <= s'.fed && s.shut <= s'.shut
    ensures ChannelsOk(s')
  {
    forall r | 0 <= r < |s'.channels| ensures ChannelOk(s', r) {
      assert s.channels[r] == s'.channels[r];
      assert ChannelOk(s, r);
    }
  }

  lemma TableLength(s: State)
    requires TableOk(s)
    ensures |s.channels| == |s.reqs|
  {
  }

  lemma ThreadStable(s: State, s': State, th: Thread)
    requires TableOk(s) && ThreadOk(s, th) && Later(s, s')
    requires 0 <= Claim(th) < |s.channels| ==> s'.channels[Claim(th)] == s.channels[Claim(th)]
    ensures ThreadOk(s', th)
  {
    hide TableOk, InTable;
    assert |s.channels| == |s.reqs| by { TableLength(s); }
    assert forall r :: 0 <= r < |s.reqs| ==> s.reqs[r] == s'.reqs[r];
  }

  /** One thread moves on, the others staying where they are. */
  lemma MoveKeeps(s: State, s': State, t: nat, th: Thread)
    requires TableOk(s) && ThreadsOk(s) && ClaimsDistinct(s) && t < |s.threads|
    requires Later(s, s') && s'.threads == s.threads[t := th] && ThreadOk(s', th)
    requires forall u {:trigger s.threads[u]} ::
               0 <= u < |s.threads| && u != t && 0 <= Claim(s.threads[u]) < |s.channels| ==>
                 s'.channels[Claim(s.threads[u])] == s.channels[Claim(s.threads[u])]
    requires Claim(th) >= 0 ==>
               forall u {:trigger s.threads[u]} :: 0 <= u < |s.threads| && u != t ==> Claim(s.threads[u]) != Claim(th)
    ensures ThreadsOk(s') && ClaimsDistinct(s')
  {
    hide ThreadOk, Later, TableOk, Claim;
    forall u | 0 <= u < |s'.threads| ensures ThreadOk(s', s'.threads[u]) {
      if u != t {
        assert s'.threads[u] == s.threads[u];
        ThreadStable(s, s', s.threads[u]);
      }
    }
    forall u, v {:trigger s'.threads[u], s'.threads[v]} | 0 <= u < v < |s'.threads| && Claim(s'.threads[u]) >= 0
      ensures Claim(s'.threads[u]) != Claim(s'.threads[v])
    {
      assert u != t ==> s'.threads[u] == s.threads[u];
      assert v != t ==> s'.threads[v] == s.threads[v];
    }
  }

  lemma SpawnKeeps(s: State, s': State, th: Thread)
    requires TableOk(s) && ThreadsOk(s) && ClaimsDistinct(s)
    requires Later(s, s') && s'.threads == s.threads + [th] && ThreadOk(s', th) && Claim(th) < 0
    requires forall r {:trigger s.channels[r]} :: 0 <= r < |s.channels| ==> s'.channels[r] == s.channels[r]
    ensures ThreadsOk(s') && ClaimsDistinct(s')
  {
    hide ThreadOk, Later, TableOk;
    forall u | 0 <= u < |s'.threads| ensures ThreadOk(s', s'.threads[u]) {
      if u < |s.threads| {
        assert s'.threads[u] == s.threads[u];
        ThreadStable(s, s', s.threads[u]);
      }
    }
  }

  lemma AddTableAt(s: State, id: MessageId, r: nat)
    requires TableOk(s) && Partition(s) && r < |s.reqs|
    ensures InTable(AddRequest(s, id), r) <==> InTable(s, r) && r !in AddRequest(s, id).lost
  {
    var s' := AddRequest(s, id);
    assert s'.reqs[r] == s.reqs[r];
    assert InTable(s, r) ==> r !in s.lost;
    if s.reqs[r] == id && InTable(s, r) {
      assert r in s'.lost;
    }
  }

  lemma AddTable(s: State, id: MessageId)
    requires TableOk(s) && Partition(s)
    ensures var s' := AddRequest(s, id); Later(s, s') && TableOk(s') && Partition(s')
  {
    var s' := AddRequest(s, id);
    var n := |s.reqs|;
    assert id in s.table ==> InTable(s, s.table[id]);
    forall r {:trigger InTable(s', r)} | 0 <= r < |s'.reqs|
      ensures InTable(s', r) <==> r == n || (InTable(s, r) && r !in s'.lost)
    {
      if r < n {
        assert s'.reqs[r] == s.reqs[r];
        AddTableAt(s, id, r);
      }
    }
  }

  lemma AddLost(s: State, id: MessageId)
    requires LostOk(s) && TableOk(s)
    ensures LostOk(AddRequest(s, id))
  {
    var reqs := s.reqs + [id];
    forall r | r in AddRequest(s, id).lost ensures Replaced(reqs, r) {
      if r in s.lost {
        var q :| r < q < |s.reqs| && s.reqs[q] == s.reqs[r];
        assert reqs[q] == reqs[r];
      } else {
        assert reqs[|s.reqs|] == reqs[r];
      }
    }
  }

  /** A Put: the new request is in the table, and what it replaces is counted as replaced. */
  lemma AddKeeps(s: State, id: MessageId)
    requires Sound(s)
    ensures var s' := AddRequest(s, id);
            Later(s, s') && TableOk(s') && Partition(s') && ChannelsOk(s') && LostOk(s')
  {
    hide ThreadsOk, ClaimsDistinct, LostOk;
    AddLost(s, id);
    AddTable(s, id);
    var s' := AddRequest(s, id);
    forall r | 0 <= r < |s'.channels| ensures ChannelOk(s', r) {
      assert r < |s.channels| ==> ChannelOk(s, r);
    }
  }

  /** A lookup that finds its entry: a Feed or a Close, and only it, holds the request from then on. */
  lemma RemoveKeeps(s: State, id: MessageId, s': State)
    requires Sound(s) && id in s.table
    requires s' == s.(table := s.table - {id}, fed := s.fed + {s.table[id]})
          || s' == s.(table := s.table - {id}, shut := s.shut + {s.table[id]})
    ensures Later(s, s') && TableOk(s') && Partition(s') && ChannelsOk(s') && LostOk(s')
    ensures !InTable(s', s.table[id])
  {
    hide ThreadsOk, ClaimsDistinct;
    ChannelsKeep(s, s');
    var r := s.table[id];
    assert InTable(s, r);
    forall q | 0 <= q < |s'.reqs|
      ensures InTable(s', q) <==> InTable(s, q) && q != r
    {
    }
  }

  /** Requests in the table are nobody's claim. */
  lemma TableUnclaimed(s: State, r: nat, u: nat)
    requires Sound(s) && InTable(s, r) && u < |s.threads|
    ensures Claim(s.threads[u]) != r
  {
    assert ThreadOk(s, s.threads[u]);
  }

  /** A step that changes nothing but a thread. */
  lemma SameKeeps(s: State, s': State)
    requires Sound(s)
    requires s' == s.(threads := s'.threads)
    ensures Later(s, s') && TableOk(s') && Partition(s') && ChannelsOk(s') && LostOk(s') && !s'.panicked
  {
    hide ThreadsOk, ClaimsDistinct;
    ChannelsKeep(s, s');
    assert forall r :: InTable(s', r) == InTable(s, r);
  }

  /** A Close of a request that is no longer in the table lets its caller go on. */
  lemma ContinueOk(s: State, of: nat, ret: Return)
    requires TableOk(s) && of < |s.reqs| && ReturnOk(s, of, ret) && (ret.ToCaller? || !InTable(s, ret.r))
    ensures ThreadOk(s, Continue(ret))
  {
  }

  lemma FrameKeeps(s: State, s1: State, s': State)
    requires Later(s, s1) && TableOk(s1) && Partition(s1) && ChannelsOk(s1) && LostOk(s1)
    requires s' == s1.(threads := s'.threads)
    ensures Later(s, s') && TableOk(s') && Partition(s') && ChannelsOk(s') && LostOk(s')
    ensures forall r :: InTable(s', r) == InTable(s1, r)
  {
    ChannelsKeep(s1, s');
    assert forall r :: InTable(s', r) == InTable(s1, r);
  }

  lemma LoadFinds(s: State, t: nat)
    requires Sound(s) && Enabled(s, Load(t))
    requires var th := s.threads[t];
             var id := if th.FeedLoad? then th.msg.relatesTo else s.reqs[th.of];
             id in s.table && !(th.FeedLoad? && id == EMPTY_ID)
    ensures Sound(LoadAndDelete(s, t))
  {
    hide LostOk;
    var th := s.threads[t];
    var id := if th.FeedLoad? then th.msg.relatesTo else s.reqs[th.of];
    var r := s.table[id];
    assert ThreadOk(s, th) && InTable(s, r);
    var s1 := if th.FeedLoad? then s.(table := s.table - {id}, fed := s.fed + {r})
              else s.(table := s.table - {id}, shut := s.shut + {r});
    RemoveKeeps(s, id, s1);
    var s' := LoadAndDelete(s, t);
    assert s' == s1.(threads := s'.threads);
    FrameKeeps(s, s1, s');
    assert ChannelOk(s, r);
    assert s.channels[r].sends == 0 && s.channels[r].closes == 0;
    forall u | 0 <= u < |s.threads| ensures Claim(s.threads[u]) != r {
      TableUnclaimed(s, r, u);
    }
    MoveKeeps(s, s', t, s'.threads[t]);
  }

  lemma LoadKeeps(s: State, t: nat)
    requires Sound(s) && Enabled(s, Load(t))
    ensures Sound(Step(s, Load(t)))
  {
    hide ChannelsOk, LostOk, Partition;
    var th := s.threads[t];
    var s' := LoadAndDelete(s, t);
    assert ThreadOk(s, th);
    var id := if th.FeedLoad? then th.msg.relatesTo else s.reqs[th.of];
    if id in s.table && !(th.FeedLoad? && id == EMPTY_ID) {
      LoadFinds(s, t);
    } else {
      SameKeeps(s, s');
      if th.CloseLoad? {
        ContinueOk(s, th.of, th.ret);
      }
      MoveKeeps(s, s', t, s'.threads[t]);
    }
  }

  /** A channel used by the thread that claims it. */
  lemma ChannelKeeps(s: State, r: nat, ch: Channel, s1: State)
    requires Sound(s) && r < |s.channels| && s1 == s.(channels := s.channels[r := ch])
    requires (s.channels[r].sends == 1 ==> ch.sends == 1) && (s.channels[r].closes == 1 ==> ch.closes == 1)
    requires ch.sends <= 1 && ch.closes <= 1 && (ch.sends == 1 ==> r in s.fed) && (ch.closes == 1 ==> r in s.shut)
    requires ch.closed == ch.once == (ch.closes == 1)
    ensures Later(s, s1) && TableOk(s1) && Partition(s1) && ChannelsOk(s1) && LostOk(s1)
    ensures forall q :: InTable(s1, q) == InTable(s, q)
  {
    hide ThreadsOk, ClaimsDistinct;
    forall q | 0 <= q < |s1.channels| ensures ChannelOk(s1, q) {
      assert ChannelOk(s, q);
    }
    assert forall q :: InTable(s1, q) == InTable(s, q);
  }

  lemma AfterClose(s: State, s': State, ret: Return)
    requires TableOk(s) && !ret.ToCaller? && ReturnOk(s, ret.r, ret) && !InTable(s, ret.r)
    requires Later(s, s') && TableOk(s')
    ensures ThreadOk(s', Continue(ret))
  {
    assert forall r :: 0 <= r < |s.reqs| ==> s.reqs[r] == s'.reqs[r];
  }

  lemma CloseKeeps(s: State, t: nat)
    requires Sound(s) && Enabled(s, CloseOnce(t))
    ensures Sound(Step(s, CloseOnce(t)))
  {
    hide LostOk, Partition;
    var th := s.threads[t];
    var r := th.entry;
    assert ThreadOk(s, th) && ChannelOk(s, r);
    var ch := s.channels[r].(once := true, closed := true, closes := 1);
    var s1 := s.(channels := s.channels[r := ch]);
    ChannelKeeps(s, r, ch, s1);
    var s' := CloseTheChannel(s, t);
    assert s' == s1.(threads := s'.threads);
    FrameKeeps(s, s1, s');
    if !th.ret.ToCaller? {
      AfterClose(s, s', th.ret);
    }
    MoveKeeps(s, s', t, Continue(th.ret));
  }

  lemma LaterSelf(s: State)
    requires TableOk(s)
    ensures Later(s, s)
  {
  }

  lemma DeliverKeeps(s: State, t: nat, w: nat)
    requires Sound(s) && Enabled(s, Deliver(t, w))
    ensures Sound(Step(s, Deliver(t, w)))
  {
    hide LostOk, Partition;
    var th, wh := s.threads[t], s.threads[w];
    var r := th.to;
    assert ThreadOk(s, th) && ThreadOk(s, wh) && ChannelOk(s, r);
    var ch := s.channels[r].(sends := 1);
    var s1 := s.(channels := s.channels[r := ch]);
    ChannelKeeps(s, r, ch, s1);
    var s2 := s1.(threads := s.threads[t := Finished]);
    FrameKeeps(s, s1, s2);
    MoveKeeps(s, s2, t, Finished);
    var s' := Step(s, Deliver(t, w));
    assert s2.threads[w] == wh;
    FrameKeeps(s2, s2, s') by { LaterSelf(s2); }
    MoveKeeps(s2, s', w, s'.threads[w]);
  }

  /** Steps of a single thread that touch neither table nor channels. */
  lemma QuietKeeps(s: State, a: Action)
    requires Sound(s) && Enabled(s, a)
    requires a.Sent? || a.SendFails? || a.ContextEnds? || a.ReceiveClosed?
    ensures Sound(Step(s, a))
  {
    hide LostOk, Partition;
    var s' := Step(s, a);
    assert ThreadOk(s, s.threads[a.t]);
    if a.ReceiveClosed? {
      assert ChannelOk(s, s.threads[a.t].req);
    }
    SameKeeps(s, s');
    MoveKeeps(s, s', a.t, s'.threads[a.t]);
  }

  lemma AddOnly(s: State, s': State)
    requires TableOk(s) && ThreadsOk(s) && ClaimsDistinct(s) && Later(s, s') && s'.threads == s.threads
    requires forall r {:trigger s.channels[r]} :: 0 <= r < |s.channels| ==> s'.channels[r] == s.channels[r]
    ensures ThreadsOk(s') && ClaimsDistinct(s')
  {
    hide ThreadOk, Later, TableOk;
    forall u | 0 <= u < |s'.threads| ensures ThreadOk(s', s'.threads[u]) {
      ThreadStable(s, s', s.threads[u]);
    }
  }

  lemma StartKeeps(s: State, a: Action)
    requires Sound(s) && Enabled(s, a)
    requires a.Put? || a.StartRequest? || a.StartFeed? || a.StartClose? || a.StartWait?
    ensures Sound(Step(s, a))
  {
    hide LostOk, Partition, ChannelsOk;
    var s' := Step(s, a);
    if a.Put? || a.StartRequest? {
      AddKeeps(s, a.id);
      var s1 := AddRequest(s, a.id);
      FrameKeeps(s, s1, s');
      var s2 := s1.(threads := s.threads + [Finished]);
      FrameKeeps(s, s1, s2);
      SpawnKeeps(s, s2, Finished);
      if a.StartRequest? {
        SpawnKeeps(s, s', Sending(|s.reqs|));
      } else {
        AddOnly(s, s');
      }
    } else {
      SameKeeps(s, s');
      SpawnKeeps(s, s', s'.threads[|s.threads|]);
    }
  }

  /** Nobody ever sends on a closed channel. */
  lemma NeverSendsOnClosed(s: State, t: nat)
    requires Sound(s)
    ensures !Enabled(s, SendOnClosed(t))
  {
    if t < |s.threads| && s.threads[t].FeedSend? {
      assert ThreadOk(s, s.threads[t]);
      assert ChannelOk(s, s.threads[t].to);
    }
  }

  // ---- at most one reply for a request ----

  /** A thread that moves on neither gains a reply nor changes the one it has. */
  lemma RepliesMove(threads: seq<Thread>, t: nat, th: Thread)
    requires RepliesDistinct(threads) && t < |threads|
    requires RepliedTo(th) == RepliedTo(threads[t]) || RepliedTo(th) == -1
    ensures RepliesDistinct(threads[t := th])
  {
    hide RepliedTo;
  }

  /** A reply a thread has went through the channel of its request. */
  lemma ReplySent(s: State, th: Thread)
    requires ThreadOk(s, th) && RepliedTo(th) >= 0
    ensures RepliedTo(th) < |s.channels| && s.channels[RepliedTo(th)].sends == 1
  {
  }

  lemma NewReply(threads: seq<Thread>, w: nat, r: nat, th: Thread)
    requires RepliesDistinct(threads) && w < |threads| && RepliedTo(th) == r
    requires forall u {:trigger threads[u]} :: 0 <= u < |threads| ==> RepliedTo(threads[u]) != r
    ensures RepliesDistinct(threads[w := th])
  {
    hide RepliedTo;
  }

  /** A waiter takes the message of a Feed: nobody had a reply for its request. */
  lemma DeliverReplies(s: State, t: nat, w: nat)
    requires Inv(s) && Enabled(s, Deliver(t, w))
    ensures RepliesDistinct(Step(s, Deliver(t, w)).threads)
  {
    hide TableOk, Partition, ChannelsOk, ClaimsDistinct, LostOk;
    var r := s.threads[t].to;
    assert ThreadOk(s, s.threads[t]);
    forall u | 0 <= u < |s.threads| ensures RepliedTo(s.threads[u]) != r {
      assert ThreadOk(s, s.threads[u]);
      if RepliedTo(s.threads[u]) == r {
        ReplySent(s, s.threads[u]);
      }
    }
    RepliesMove(s.threads, t, Finished);
    NewReply(s.threads[t := Finished], w, r, Step(s, Deliver(t, w)).threads[w]);
  }

  lemma RepliesSpawn(threads: seq<Thread>, th: Thread)
    requires RepliesDistinct(threads) && RepliedTo(th) == -1
    ensures RepliesDistinct(threads + [th])
  {
    hide RepliedTo;
  }

  /** The steps of a Close carry its caller's outcome along. */
  lemma CloseReplies(s: State, a: Action)
    requires RepliesDistinct(s.threads) && Enabled(s, a) && (a.Load? || a.CloseOnce?)
    ensures RepliesDistinct(Step(s, a).threads)
  {
    hide RepliesDistinct;
    RepliesMove(s.threads, a.t, Step(s, a).threads[a.t]);
  }

  lemma WaiterReplies(s: State, a: Action)
    requires RepliesDistinct(s.threads) && Enabled(s, a)
    requires a.Sent? || a.SendFails? || a.ContextEnds? || a.ReceiveClosed?
    ensures RepliesDistinct(Step(s, a).threads)
  {
    hide RepliesDistinct;
    RepliesMove(s.threads, a.t, Step(s, a).threads[a.t]);
  }

  lemma StartReplies(s: State, a: Action)
    requires RepliesDistinct(s.threads) && Enabled(s, a)
    requires a.Put? || a.StartRequest? || a.StartFeed? || a.StartClose? || a.StartWait?
    ensures RepliesDistinct(Step(s, a).threads)
  {
    hide RepliesDistinct;
    if !a.Put? {
      RepliesSpawn(s.threads, Step(s, a).threads[|s.threads|]);
    }
  }

  /** Every step of every thread keeps the invariant. */
  lemma StepKeeps(s: State, a: Action)
    requires Inv(s) && Enabled(s, a)
    ensures Inv(Step(s, a))
  {
    hide Sound, Step, RepliesDistinct;
    if a.Load? {
      LoadKeeps(s, a.t);
      CloseReplies(s, a);
    } else if a.CloseOnce? {
      CloseKeeps(s, a.t);
      CloseReplies(s, a);
    } else if a.Deliver? {
      DeliverKeeps(s, a.t, a.w);
      DeliverReplies(s, a.t, a.w);
    } else if a.SendOnClosed? {
      NeverSendsOnClosed(s, a.t);
    } else if a.Sent? || a.SendFails? || a.ContextEnds? || a.ReceiveClosed? {
      QuietKeeps(s, a);
      WaiterReplies(s, a);
    } else {
      StartKeeps(s, a);
      StartReplies(s, a);
    }
  }

  // ---- runs ----

  predicate IsRun(s: State, run: seq<Action>)
    decreases |run|
  {
    run == [] || (Enabled(s, run[0]) && IsRun(Step(s, run[0]), run[1..]))
  }

  function After(s: State, run: seq<Action>): State
    requires IsRun(s, run)
    decreases |run|
  {
    if run == [] then s else After(Step(s, run[0]), run[1..])
  }

  lemma {:induction false} RunKeeps(s: State, run: seq<Action>)
    requires Inv(s) && IsRun(s, run)
    ensures Inv(After(s, run))
    decreases |run|
  {
    hide Inv, Step, Enabled;
    if run != [] {
      StepKeeps(s, run[0]);
      RunKeeps(Step(s, run[0]), run[1..]);
    }
  }

  /** The channel a thread is about to close was neither closed nor sent on. */
  predicate Fresh(s: State, t: nat)
    requires Enabled(s, CloseOnce(t))
  {
    s.channels[s.threads[t].entry] == OPEN
  }

  lemma AboutToClose(s: State, t: nat)
    requires Sound(s) && Enabled(s, CloseOnce(t))
    ensures Fresh(s, t)
  {
    assert ThreadOk(s, s.threads[t]);
    assert ChannelOk(s, s.threads[t].entry);
  }

  /** Safety in every interleaving, even with reused ids: a channel carries at most one message or at most one
      close and never both, and no send on or close of a closed channel ever happens or is about to. */
  lemma ChannelSafety(run: seq<Action>)
    requires IsRun(INITIAL, run)
    ensures var s := After(INITIAL, run);
            && !s.panicked
            && (forall r {:trigger s.channels[r]} :: 0 <= r < |s.channels| ==>
                  s.channels[r].sends + s.channels[r].closes <= 1)
            && (forall t: nat {:trigger SendOnClosed(t)} :: !Enabled(s, SendOnClosed(t)))
            && (forall t: nat {:trigger CloseOnce(t)} :: Enabled(s, CloseOnce(t)) ==> Fresh(s, t))
  {
    hide After, IsRun;
    RunKeeps(INITIAL, run);
    var s := After(INITIAL, run);
    forall r | 0 <= r < |s.channels| ensures s.channels[r].sends + s.channels[r].closes <= 1 {
      assert ChannelOk(s, r);
    }
    forall t: nat ensures !Enabled(s, SendOnClosed(t)) {
      NeverSendsOnClosed(s, t);
    }
    forall t: nat | Enabled(s, CloseOnce(t)) ensures Fresh(s, t) {
      AboutToClose(s, t);
    }
  }

  /** Correlation: a reply returned for a request names that request, came through a Feed, and is returned by no
      other Wait; a cancellation means a Close removed the request; and a request whose Wait or RequestReply
      returned is out of the table. */
  lemma Correlation(run: seq<Action>, t: nat)
    requires IsRun(INITIAL, run)
    requires t < |After(INITIAL, run).threads| && After(INITIAL, run).threads[t].Returned?
    ensures var s := After(INITIAL, run);
            var th := s.threads[t];
            && th.req < |s.reqs| && !InTable(s, th.req)
            && (th.result.Replied? ==> th.result.msg.relatesTo == s.reqs[th.req] != EMPTY_ID && th.req in s.fed)
            && (th.result.Cancelled? ==> th.req in s.shut)
            && (th.result.Replied? ==> forall u {:trigger s.threads[u]} :: 0 <= u < |s.threads| && u != t ==>
                  !(s.threads[u].Returned? && s.threads[u].req == th.req && s.threads[u].result.Replied?))
  {
    hide After, IsRun;
    RunKeeps(INITIAL, run);
    var s := After(INITIAL, run);
    assert ThreadOk(s, s.threads[t]);
    assert ChannelOk(s, s.threads[t].req);
  }

  lemma Total(all: set<nat>, a: set<nat>, b: set<nat>, c: set<nat>, d: set<nat>)
    requires forall r :: r in all <==> r in a || r in b || r in c || r in d
    requires a !! b && a !! c && a !! d && b !! c && b !! d && c !! d
    ensures |all| == |a| + |b| + |c| + |d|
  {
    assert all == a + b + c + d;
    assert (a + b) !! c && (a + b + c) !! d;
  }

  function Upto(n: nat): (u: set<nat>)
    ensures |u| == n && forall r: nat :: r in u <==> r < n
  {
    if n == 0 then {} else Upto(n - 1) + {n - 1}
  }

  lemma OneLess<K, V>(table: map<K, V>, id: K)
    requires id in table
    requires forall a, b {:trigger table[a], table[b]} :: a in table && b in table && table[a] == table[b] ==> a == b
    ensures var smaller := table - {id};
            |table| == |smaller| + 1 && |table.Values| == |smaller.Values| + 1
            && (forall a :: a in smaller ==> a in table && smaller[a] == table[a])
  {
    var smaller := table - {id};
    assert table.Keys == smaller.Keys + {id};
    assert table[id] !in smaller.Values;
    assert table.Values == smaller.Values + {table[id]} by {
      forall v | v in table.Values ensures v in smaller.Values + {table[id]} {
        var a :| a in table && table[a] == v;
        assert a == id || a in smaller;
      }
    }
  }

  /** A map with distinct values has as many as it has keys. */
  lemma {:induction false} ValuesCount<K, V>(table: map<K, V>)
    requires forall a, b {:trigger table[a], table[b]} :: a in table && b in table && table[a] == table[b] ==> a == b
    ensures |table| == |table.Values|
    decreases |table|
  {
    if table != map[] {
      var id :| id in table;
      OneLess(table, id);
      ValuesCount(table - {id});
    }
  }

  lemma Count(s: State)
    requires TableOk(s) && Partition(s)
    ensures |s.reqs| == |s.table| + |s.fed| + |s.shut| + |s.lost|
  {
    var held := s.table.Values;
    ValuesCount(s.table);
    forall r: nat ensures r in held <==> InTable(s, r) {
      if r in held {
        var id :| id in s.table && s.table[id] == r;
      }
    }
    Total(Upto(|s.reqs|), held, s.fed, s.shut, s.lost);
  }

  /** Conservation: requests put are in the table, or were claimed by a Feed or by a Close, or were replaced. */
  lemma Conservation(run: seq<Action>)
    requires IsRun(INITIAL, run)
    ensures var s := After(INITIAL, run);
            && |s.reqs| == |s.table| + |s.fed| + |s.shut| + |s.lost|
            && (forall r {:trigger InTable(s, r)} :: 0 <= r < |s.reqs| ==>
                  (InTable(s, r) <==> r !in s.fed && r !in s.shut && r !in s.lost))
  {
    hide After, IsRun;
    RunKeeps(INITIAL, run);
    Count(After(INITIAL, run));
  }

  // ---- distinct ids ----

  predicate DistinctIds(ids: seq<MessageId>) {
    forall i, j :: 0 <= i < j < |ids| ==> ids[i] != ids[j]
  }

  /** Nothing was ever replaced, each reply could only reach the one request it names, and the id of a request
      whose call has returned is not in the table. */
  predicate Undisturbed(s: State) {
    && s.lost == {}
    && (forall t {:trigger s.threads[t]} :: 0 <= t < |s.threads| && s.threads[t].Returned? ==>
          s.threads[t].req < |s.reqs| && s.reqs[s.threads[t].req] !in s.table)
    && (forall t, r {:trigger s.threads[t], s.reqs[r]} ::
          (0 <= t < |s.threads| && 0 <= r < |s.reqs| && s.threads[t].Returned? && s.threads[t].result.Replied?
           && s.threads[t].result.msg.relatesTo == s.reqs[r]) ==> s.threads[t].req == r)
  }

  /** With distinct ids requests do not disturb each other. */
  lemma DistinctRequests(run: seq<Action>)
    requires IsRun(INITIAL, run) && DistinctIds(After(INITIAL, run).reqs)
    ensures Undisturbed(After(INITIAL, run))
  {
    hide After, IsRun;
    RunKeeps(INITIAL, run);
    var s := After(INITIAL, run);
    forall t | 0 <= t < |s.threads| && s.threads[t].Returned?
      ensures s.threads[t].req < |s.reqs| && s.reqs[s.threads[t].req] !in s.table
    {
      assert ThreadOk(s, s.threads[t]);
    }
    forall t, r {:trigger s.threads[t], s.reqs[r]} |
      0 <= t < |s.threads| && 0 <= r < |s.reqs| && s.threads[t].Returned? && s.threads[t].result.Replied?
      && s.threads[t].result.msg.relatesTo == s.reqs[r]
      ensures s.threads[t].req == r
    {
      assert ThreadOk(s, s.threads[t]);
    }
  }

  /** Requests whose ids were drawn from one factory, no two of them 2^32 or more draws apart and put in any order,
      do not disturb each other in any run; and none has the empty id, which Feed never looks up. */
  lemma FactoryRequests(run: seq<Action>, random: seq<byte>, start: u32, draws: seq<nat>)
    requires IsRun(INITIAL, run) && |random| == 16 && |draws| == |After(INITIAL, run).reqs|
    requires var ids := After(INITIAL, run).reqs;
             forall i {:trigger ids[i]} :: 0 <= i < |ids| ==> ids[i] == IdAt(NewGuidV4(random), start, draws[i])
    requires forall i, j :: 0 <= i < j < |draws| ==>
               draws[i] != draws[j] && -0x1_0000_0000 < draws[i] - draws[j] < 0x1_0000_0000
    ensures Undisturbed(After(INITIAL, run)) && EMPTY_ID !in After(INITIAL, run).reqs
  {
    hide IdAt, NewGuidV4, After, IsRun, Undisturbed;
    var ids := After(INITIAL, run).reqs;
    forall i, j | 0 <= i < j < |ids| ensures ids[i] != ids[j] {
      IdsDistinct(random, start, draws[i], draws[j]);
    }
    DistinctRequests(run);
    forall i | 0 <= i < |ids| ensures ids[i] != EMPTY_ID {
      IdsDistinct(random, start, draws[i], draws[i]);
    }
  }

  // ---- where outcomes come from ----

  /** The message a thread carries: a Feed on its way to a waiter, or the reply a waiter has. */
  function Carried(th: Thread): Outcome {
    match th
    case FeedLoad(msg) => Replied(msg)
    case FeedSend(msg, _) => Replied(msg)
    case CloseLoad(_, ret) => if ret.ToCaller? then Cancelled else ret.outcome
    case CloseChannel(_, ret) => if ret.ToCaller? then Cancelled else ret.outcome
    case Returned(_, outcome, _) => outcome
    case _ => Cancelled
  }

  function Weight(th: Thread, m: Reply): nat {
    if Carried(th) == Replied(m) then 1 else 0
  }

  function Carriers(threads: seq<Thread>, m: Reply): nat {
    if threads == [] then 0 else Weight(threads[0], m) + Carriers(threads[1..], m)
  }

  /** How often `m` was fed in a run. */
  function Feeds(run: seq<Action>, m: Reply): nat {
    if run == [] then 0 else (if run[0] == StartFeed(m) then 1 else 0) + Feeds(run[1..], m)
  }

  /** How many calls have returned `m`. */
  function Answers(threads: seq<Thread>, m: Reply): nat {
    if threads == [] then 0
    else (if threads[0].Returned? && threads[0].result == Replied(m) then 1 else 0) + Answers(threads[1..], m)
  }

  lemma {:induction false} CarriersMove(threads: seq<Thread>, t: nat, th: Thread, m: Reply)
    requires t < |threads|
    ensures Carriers(threads[t := th], m) + Weight(threads[t], m) == Carriers(threads, m) + Weight(th, m)
  {
    hide Weight;
    if t == 0 {
      assert threads[0 := th][1..] == threads[1..];
    } else {
      CarriersMove(threads[1..], t - 1, th, m);
      assert threads[t := th][1..] == threads[1..][t - 1 := th];
    }
  }

  lemma {:induction false} CarriersSpawn(threads: seq<Thread>, th: Thread, m: Reply)
    ensures Carriers(threads + [th], m) == Carriers(threads, m) + Weight(th, m)
  {
    hide Weight;
    if threads == [] {
      assert threads + [th] == [th] && [th][1..] == [];
    } else {
      CarriersSpawn(threads[1..], th, m);
      assert (threads + [th])[1..] == threads[1..] + [th];
    }
  }

  /** Delivering hands the message from the Feed to the waiter. */
  lemma DeliverCarries(s: State, t: nat, w: nat, m: Reply)
    requires Enabled(s, Deliver(t, w))
    ensures Carriers(Step(s, Deliver(t, w)).threads, m) == Carriers(s.threads, m)
  {
    hide Carriers;
    var s' := Step(s, Deliver(t, w));
    var mid := s.threads[t := Finished];
    CarriersMove(s.threads, t, Finished, m);
    CarriersMove(mid, w, s'.threads[w], m);
    assert s'.threads == mid[w := s'.threads[w]];
  }

  /** A step of a thread in Feed or Close: it keeps its message or loses it. */
  lemma CloseCarries(s: State, a: Action, m: Reply)
    requires Enabled(s, a) && (a.Load? || a.CloseOnce?)
    ensures Carriers(Step(s, a).threads, m) <= Carriers(s.threads, m)
  {
    hide Carriers;
    CarriersMove(s.threads, a.t, Step(s, a).threads[a.t], m);
    assert Step(s, a).threads == s.threads[a.t := Step(s, a).threads[a.t]];
  }

  /** A step of a sender or waiter that receives nothing. */
  lemma WaiterCarries(s: State, a: Action, m: Reply)
    requires Enabled(s, a) && (a.Sent? || a.SendFails? || a.ContextEnds? || a.ReceiveClosed?)
    ensures Carriers(Step(s, a).threads, m) <= Carriers(s.threads, m)
  {
    hide Carriers;
    CarriersMove(s.threads, a.t, Step(s, a).threads[a.t], m);
    assert Step(s, a).threads == s.threads[a.t := Step(s, a).threads[a.t]];
  }

  lemma StartCarries(s: State, a: Action, m: Reply)
    requires Enabled(s, a) && (a.StartRequest? || a.StartFeed? || a.StartClose? || a.StartWait?)
    ensures Carriers(Step(s, a).threads, m) ==
            Carriers(s.threads, m) + if a == StartFeed(m) then 1 else 0
  {
    hide Carriers;
    CarriersSpawn(s.threads, Step(s, a).threads[|s.threads|], m);
  }

  /** Only feeding a message adds a thread that carries it. */
  lemma StepCarries(s: State, a: Action, m: Reply)
    requires Enabled(s, a)
    ensures Carriers(Step(s, a).threads, m) <= Carriers(s.threads, m) + if a == StartFeed(m) then 1 else 0
  {
    hide Carriers, Weight, Carried;
    if a.Deliver? {
      DeliverCarries(s, a.t, a.w, m);
    } else if a.StartRequest? || a.StartFeed? || a.StartClose? || a.StartWait? {
      StartCarries(s, a, m);
    } else if a.Load? || a.CloseOnce? {
      CloseCarries(s, a, m);
    } else if a.Sent? || a.SendFails? || a.ContextEnds? || a.ReceiveClosed? {
      WaiterCarries(s, a, m);
    }
  }

  lemma {:induction false} RunCarries(s: State, run: seq<Action>, m: Reply)
    requires IsRun(s, run)
    ensures Carriers(After(s, run).threads, m) <= Carriers(s.threads, m) + Feeds(run, m)
    decreases |run|
  {
    hide Step, Enabled, Carriers;
    if run != [] {
      StepCarries(s, run[0], m);
      RunCarries(Step(s, run[0]), run[1..], m);
    }
  }

  lemma {:induction false} AnswersCarried(threads: seq<Thread>, m: Reply)
    ensures Answers(threads, m) <= Carriers(threads, m)
  {
    if threads != [] {
      AnswersCarried(threads[1..], m);
    }
  }

  lemma {:induction false} AnswersAt(threads: seq<Thread>, t: nat, m: Reply)
    requires t < |threads| && threads[t].Returned? && threads[t].result == Replied(m)
    ensures Answers(threads, m) > 0
  {
    if t > 0 {
      AnswersAt(threads[1..], t - 1, m);
    }
  }

  lemma {:induction false} FeedsAt(run: seq<Action>, m: Reply) returns (i: nat)
    requires Feeds(run, m) > 0
    ensures i < |run| && run[i] == StartFeed(m)
  {
    if run[0] == StartFeed(m) {
      i := 0;
    } else {
      i := FeedsAt(run[1..], m);
      i := i + 1;
    }
  }

  /** In every run a message is returned at most as often as it was fed, ... */
  lemma AnswersFed(run: seq<Action>, m: Reply)
    requires IsRun(INITIAL, run)
    ensures Answers(After(INITIAL, run).threads, m) <= Feeds(run, m)
  {
    hide IsRun, After;
    RunCarries(INITIAL, run, m);
    AnswersCarried(After(INITIAL, run).threads, m);
  }

  /** ... so a returned reply is, content and all, a message that was fed. */
  lemma ReplyWasFed(run: seq<Action>, t: nat) returns (i: nat)
    requires IsRun(INITIAL, run) && t < |After(INITIAL, run).threads|
    requires After(INITIAL, run).threads[t].Returned? && After(INITIAL, run).threads[t].result.Replied?
    ensures i < |run| && run[i] == StartFeed(After(INITIAL, run).threads[t].result.msg)
  {
    hide IsRun, After, Feeds, Answers;
    var m := After(INITIAL, run).threads[t].result.msg;
    AnswersFed(run, m);
    AnswersAt(After(INITIAL, run).threads, t, m);
    i := FeedsAt(run, m);
  }

  /** The event a waiting call got an outcome from. */
  predicate Causes(a: Action, t: nat, outcome: Outcome) {
    match outcome
    case Replied(_) => a.Deliver? && a.w == t
    case Cancelled => a == ReceiveClosed(t)
    case ContextDone => a == ContextEnds(t)
    case SendFailed => a == SendFails(t)
  }

  /** A thread that has an outcome to return. */
  predicate HasOutcome(th: Thread, outcome: Outcome) {
    match th
    case CloseLoad(_, ret) => !ret.ToCaller? && ret.outcome == outcome
    case CloseChannel(_, ret) => !ret.ToCaller? && ret.outcome == outcome
    case Returned(_, result, _) => result == outcome
    case _ => false
  }

  lemma CloseOutcome(s: State, a: Action, t: nat, outcome: Outcome)
    requires Enabled(s, a) && (a.Load? || a.CloseOnce?)
    requires t < |Step(s, a).threads| && HasOutcome(Step(s, a).threads[t], outcome)
    ensures t < |s.threads| && HasOutcome(s.threads[t], outcome)
  {
  }

  lemma DeliverOutcome(s: State, a: Action, t: nat, outcome: Outcome)
    requires Enabled(s, a) && a.Deliver?
    requires t < |Step(s, a).threads| && HasOutcome(Step(s, a).threads[t], outcome)
    ensures Causes(a, t, outcome) || (t < |s.threads| && HasOutcome(s.threads[t], outcome))
  {
  }

  lemma WaiterOutcome(s: State, a: Action, t: nat, outcome: Outcome)
    requires Enabled(s, a) && (a.Sent? || a.SendFails? || a.ContextEnds? || a.ReceiveClosed?)
    requires t < |Step(s, a).threads| && HasOutcome(Step(s, a).threads[t], outcome)
    ensures Causes(a, t, outcome) || (t < |s.threads| && HasOutcome(s.threads[t], outcome))
  {
  }

  lemma StartOutcome(s: State, a: Action, t: nat, outcome: Outcome)
    requires Enabled(s, a)
    requires a.Put? || a.StartRequest? || a.StartFeed? || a.StartClose? || a.StartWait? || a.SendOnClosed?
    requires t < |Step(s, a).threads| && HasOutcome(Step(s, a).threads[t], outcome)
    ensures t < |s.threads| && HasOutcome(s.threads[t], outcome)
  {
  }

  lemma StepOutcome(s: State, a: Action, t: nat, outcome: Outcome)
    requires Enabled(s, a) && t < |Step(s, a).threads| && HasOutcome(Step(s, a).threads[t], outcome)
    ensures Causes(a, t, outcome) || (t < |s.threads| && HasOutcome(s.threads[t], outcome))
  {
    hide Step, Enabled, HasOutcome, Causes;
    if a.Load? || a.CloseOnce? {
      CloseOutcome(s, a, t, outcome);
    } else if a.Deliver? {
      DeliverOutcome(s, a, t, outcome);
    } else if a.Sent? || a.SendFails? || a.ContextEnds? || a.ReceiveClosed? {
      WaiterOutcome(s, a, t, outcome);
    } else {
      StartOutcome(s, a, t, outcome);
    }
  }

  lemma {:induction false} RunOutcome(s: State, run: seq<Action>, t: nat, outcome: Outcome) returns (i: nat)
    requires IsRun(s, run) && t < |After(s, run).threads| && HasOutcome(After(s, run).threads[t], outcome)
    requires t < |s.threads| ==> !HasOutcome(s.threads[t], outcome)
    ensures i < |run| && Causes(run[i], t, outcome)
    decreases |run|
  {
    hide Step, Enabled, HasOutcome, Causes;
    var s' := Step(s, run[0]);
    if t < |s'.threads| && HasOutcome(s'.threads[t], outcome) {
      StepOutcome(s, run[0], t, outcome);
      i := 0;
    } else {
      i := RunOutcome(s', run[1..], t, outcome);
      i := i + 1;
    }
  }

  /** Every outcome returned is one that happened to that very call in the run: a delivery to it, its channel seen
      closed, its context ended, or its request not sent. */
  lemma OutcomeHappened(run: seq<Action>, t: nat) returns (i: nat)
    requires IsRun(INITIAL, run) && t < |After(INITIAL, run).threads| && After(INITIAL, run).threads[t].Returned?
    ensures i < |run| && Causes(run[i], t, After(INITIAL, run).threads[t].result)
  {
    hide IsRun, After, Causes;
    i := RunOutcome(INITIAL, run, t, After(INITIAL, run).threads[t].result);
  }

  // ---- what can happen to a request ----

  lemma RunStep(s: State, a: Action, run: seq<Action>)
    requires Enabled(s, a) && IsRun(Step(s, a), run)
    ensures IsRun(s, [a] + run) && After(s, [a] + run) == After(Step(s, a), run)
  {
    hide Enabled, Step;
    assert ([a] + run)[1..] == run;
  }

  lemma RunNothing(s: State)
    ensures IsRun(s, []) && After(s, []) == s
  {
  }

  /** A run of one action after another. */
  lemma RunThen(s: State, run: seq<Action>, s': State, a: Action)
    requires IsRun(s, run) && After(s, run) == s' && Enabled(s', a)
    ensures IsRun(s, run + [a]) && After(s, run + [a]) == Step(s', a)
    decreases |run|
  {
    hide Enabled, Step;
    if run == [] {
      RunNothing(Step(s', a));
      RunStep(s', a, []);
      assert run + [a] == [a] + [];
    } else {
      RunThen(Step(s, run[0]), run[1..], s', a);
      RunStep(s, run[0], run[1..] + [a]);
      assert run + [a] == [run[0]] + (run[1..] + [a]);
    }
  }

  /** `s` after a request with `id` has been put and sent: it is request `r`, and thread `n` waits for it. */
  predicate Awaited(s: State, s': State, id: MessageId, n: nat, r: nat) {
    && |s.channels| == |s.reqs| == r && n == |s.threads|
    && s'.table == s.table[id := r] && s'.reqs == s.reqs + [id] && s'.channels == s.channels + [OPEN]
    && s'.threads == s.threads + [Waiting(r, true)]
  }

  lemma Await(s: State, id: MessageId) returns (run: seq<Action>, s': State)
    requires |s.channels| == |s.reqs|
    ensures IsRun(s, run) && After(s, run) == s' && Awaited(s, s', id, |s.threads|, |s.reqs|)
  {
    hide IsRun, After;
    RunNothing(s);
    RunThen(s, [], s, StartRequest(id));
    var s1 := Step(s, StartRequest(id));
    RunThen(s, [] + [StartRequest(id)], s1, Sent(|s.threads|));
    run := [] + [StartRequest(id)] + [Sent(|s.threads|)];
    s' := Step(s1, Sent(|s.threads|));
  }

  /** A call that has its outcome and whose request is out of the table returns it, in two more lookups. */
  lemma Leaves(s: State, run: seq<Action>, s': State, n: nat, r: nat, outcome: Outcome) returns (all: seq<Action>)
    requires IsRun(s, run) && After(s, run) == s' && n < |s'.threads| && r < |s'.reqs| == |s'.channels|
    requires s'.threads[n] == CloseLoad(r, ToWait(r, outcome, true)) && s'.reqs[r] !in s'.table
    ensures IsRun(s, all) && After(s, all) == s'.(threads := s'.threads[n := Returned(r, outcome, true)])
  {
    hide IsRun, After;
    RunThen(s, run, s', Load(n));
    var s1 := Step(s', Load(n));
    RunThen(s, run + [Load(n)], s1, Load(n));
    all := run + [Load(n)] + [Load(n)];
    assert s'.threads[n := CloseLoad(r, ToRequest(r, outcome))][n := Returned(r, outcome, true)]
        == s'.threads[n := Returned(r, outcome, true)];
  }

  /** A reply fed for a request, while it waits, is returned by that request, content and all. */
  lemma CanBeAnswered(s: State, id: MessageId, m: Reply) returns (run: seq<Action>)
    requires |s.channels| == |s.reqs| && id != EMPTY_ID && m.relatesTo == id
    ensures IsRun(s, run)
    ensures var s' := After(s, run);
            |s'.threads| == |s.threads| + 2 && s'.threads[|s.threads|] == Returned(|s.reqs|, Replied(m), true)
            && s'.table == s.table - {id} && |s'.channels| == |s.channels| + 1 && s'.channels[|s.channels|].sends == 1
  {
    hide IsRun, After;
    var n, r := |s.threads|, |s.reqs|;
    var start, s2 := Await(s, id);
    RunThen(s, start, s2, StartFeed(m));
    var s3 := Step(s2, StartFeed(m));
    RunThen(s, start + [StartFeed(m)], s3, Load(n + 1));
    var s4 := Step(s3, Load(n + 1));
    RunThen(s, start + [StartFeed(m)] + [Load(n + 1)], s4, Deliver(n + 1, n));
    var s5 := Step(s4, Deliver(n + 1, n));
    run := Leaves(s, start + [StartFeed(m)] + [Load(n + 1)] + [Deliver(n + 1, n)], s5, n, r, Replied(m));
    assert s.table[id := r] - {id} == s.table - {id};
  }

  /** A waiting request is cancelled by a Close of it. */
  lemma CanBeCancelled(s: State, id: MessageId) returns (run: seq<Action>)
    requires |s.channels| == |s.reqs|
    ensures IsRun(s, run)
    ensures var s' := After(s, run);
            |s'.threads| == |s.threads| + 2 && s'.threads[|s.threads|] == Returned(|s.reqs|, Cancelled, true)
            && s'.table == s.table - {id} && |s'.channels| == |s.channels| + 1 && s'.channels[|s.channels|].closes == 1
  {
    hide IsRun, After;
    var n, r := |s.threads|, |s.reqs|;
    var start, s2 := Await(s, id);
    RunThen(s, start, s2, StartClose(r));
    var s3 := Step(s2, StartClose(r));
    RunThen(s, start + [StartClose(r)], s3, Load(n + 1));
    var s4 := Step(s3, Load(n + 1));
    RunThen(s, start + [StartClose(r)] + [Load(n + 1)], s4, CloseOnce(n + 1));
    var s5 := Step(s4, CloseOnce(n + 1));
    RunThen(s, start + [StartClose(r)] + [Load(n + 1)] + [CloseOnce(n + 1)], s5, ReceiveClosed(n));
    var s6 := Step(s5, ReceiveClosed(n));
    run := Leaves(s, start + [StartClose(r)] + [Load(n + 1)] + [CloseOnce(n + 1)] + [ReceiveClosed(n)], s6, n, r,
                  Cancelled);
    assert s.table[id := r] - {id} == s.table - {id};
  }

  /** A request whose context ends closes its own channel on the way out. */
  lemma CanTimeOut(s: State, id: MessageId) returns (run: seq<Action>)
    requires |s.channels| == |s.reqs|
    ensures IsRun(s, run)
    ensures var s' := After(s, run);
            |s'.threads| == |s.threads| + 1 && s'.threads[|s.threads|] == Returned(|s.reqs|, ContextDone, true)
            && s'.table == s.table - {id} && |s'.channels| == |s.channels| + 1 && s'.channels[|s.channels|].closes == 1
  {
    hide IsRun, After;
    var n, r := |s.threads|, |s.reqs|;
    var start, s2 := Await(s, id);
    RunThen(s, start, s2, ContextEnds(n));
    var s3 := Step(s2, ContextEnds(n));
    RunThen(s, start + [ContextEnds(n)], s3, Load(n));
    var s4 := Step(s3, Load(n));
    RunThen(s, start + [ContextEnds(n)] + [Load(n)], s4, CloseOnce(n));
    var s5 := Step(s4, CloseOnce(n));
    RunThen(s, start + [ContextEnds(n)] + [Load(n)] + [CloseOnce(n)], s5, Load(n));
    run := start + [ContextEnds(n)] + [Load(n)] + [CloseOnce(n)] + [Load(n)];
    assert s.table[id := r] - {id} == s.table - {id};
  }

  /** A message that relates to no request in the table, or to the empty id, changes nothing. */
  lemma UnrelatedFeed(s: State, m: Reply)
    requires m.relatesTo == EMPTY_ID || m.relatesTo !in s.table
    ensures IsRun(s, [StartFeed(m), Load(|s.threads|)])
    ensures After(s, [StartFeed(m), Load(|s.threads|)]) == s.(threads := s.threads + [Finished])
  {
    hide IsRun, After;
    RunNothing(s);
    RunThen(s, [], s, StartFeed(m));
    RunThen(s, [] + [StartFeed(m)], Step(s, StartFeed(m)), Load(|s.threads|));
    assert [] + [StartFeed(m)] + [Load(|s.threads|)] == [StartFeed(m), Load(|s.threads|)];
    assert (s.threads + [FeedLoad(m)])[|s.threads| := Finished] == s.threads + [Finished];
  }

  // ---- the steps in place ----

  /** The shared table and channels and the threads' positions, updated by one atomic operation at a time. */
  class Machine {
    var table: map<MessageId, nat>
    var reqs: seq<MessageId>
    var channels: seq<Channel>
    var threads: seq<Thread>
    ghost var fed: set<nat>
    ghost var shut: set<nat>
    ghost var lost: set<nat>
    var panicked: bool

    ghost function Abs(): State
      reads this
    {
      State(table, reqs, channels, threads, fed, shut, lost, panicked)
    }

    constructor ()
      ensures Abs() == INITIAL
    {
      table, reqs, channels, threads := map[], [], [], [];
      fed, shut, lost, panicked := {}, {}, {}, false;
    }

    /** A new channel, stored under the id of its request. */
    method Store(id: MessageId) returns (r: nat)
      modifies this
      ensures r == |old(reqs)| && Abs() == AddRequest(old(Abs()), id)
    {
      r := |reqs|;
      if id in table {
        lost := lost + {table[id]};
      }
      reqs := reqs + [id];
      channels := channels + [OPEN];
      table := table[id := r];
    }

    method LoadAndDelete(t: nat)
      requires Enabled(Abs(), Load(t))
      modifies this
      ensures Abs() == Step(old(Abs()), Load(t))
    {
      var th := threads[t];
      var id := if th.FeedLoad? then th.msg.relatesTo else reqs[th.of];
      if th.FeedLoad? && id == EMPTY_ID {
        threads := threads[t := Finished];
        return;
      }
      if id !in table {
        threads := threads[t := if th.FeedLoad? then Finished else Continue(th.ret)];
        return;
      }
      var r := table[id];
      table := table - {id};
      if th.FeedLoad? {
        fed := fed + {r};
        threads := threads[t := FeedSend(th.msg, r)];
      } else {
        shut := shut + {r};
        threads := threads[t := CloseChannel(r, th.ret)];
      }
    }

    method CloseOnce(t: nat)
      requires Enabled(Abs(), Action.CloseOnce(t))
      modifies this
      ensures Abs() == Step(old(Abs()), Action.CloseOnce(t))
    {
      var r := threads[t].entry;
      var ch := channels[r];
      threads := threads[t := Continue(threads[t].ret)];
      if !ch.once {
        if ch.closed {
          panicked := true;
        }
        channels := channels[r := ch.(once := true, closed := true, closes := ch.closes + 1)];
      }
    }

    method Deliver(t: nat, w: nat)
      requires Enabled(Abs(), Action.Deliver(t, w))
      modifies this
      ensures Abs() == Step(old(Abs()), Action.Deliver(t, w))
    {
      var msg, r := threads[t].msg, threads[t].to;
      channels := channels[r := channels[r].(sends := channels[r].sends + 1)];
      threads := threads[t := Finished];
      Leave(w, Replied(msg));
    }

    method Leave(w: nat, outcome: Outcome)
      requires w < |threads| && threads[w].Waiting?
      modifies this
      ensures Abs() == LeaveSelect(old(Abs()), w, outcome)
    {
      var th := threads[w];
      threads := threads[w := CloseLoad(th.req, ToWait(th.req, outcome, th.inRequest))];
    }
  }
}
