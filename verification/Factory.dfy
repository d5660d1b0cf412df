/** Message ids: a random version 4 GUID as prefix and a wrapping 32-bit counter. */
module Factory {
  import opened Bytes
  import opened Schema
  import opened Codec
  import opened Headers
  import opened Frames

  /** A GUID of sixteen random bytes with the version and variant bits of RFC 4122. */
  function NewGuidV4(b: seq<byte>): (g: GuidValue)
    requires |b| == 16
    ensures IsGuid(g)
  {
    var r := GuidFrom(b);
    r.(data3 := r.data3 % 0x1000 + 0x4000, data4 := r.data4[0 := r.data4[0] % 64 + 128])
  }

  /** Whatever the random bytes, the version bits keep the GUID from being empty. */
  lemma GuidV4NotEmpty(b: seq<byte>)
    requires |b| == 16
    ensures NewGuidV4(b) != EMPTY_GUID && NewGuidV4(b).data3 / 0x1000 == 4 && NewGuidV4(b).data4[0] / 64 == 2
  {
    hide GuidFrom;
  }

  /** The `k`-th id drawn from a factory whose counter stands at `start`. */
  function IdAt(prefix: GuidValue, start: u32, k: nat): MessageId {
    MessageId(prefix, (start + k) % 0x1_0000_0000)
  }

  lemma SameResidue(x: int, y: int)
    ensures x % 0x1_0000_0000 == y % 0x1_0000_0000 <==> (x - y) % 0x1_0000_0000 == 0
  {
  }

  /** Ids drawn from one factory are equal exactly when a multiple of 2^32 draws lies between them, so any 2^32
      consecutive ones are pairwise distinct; and none is empty. */
  lemma IdsDistinct(b: seq<byte>, start: u32, i: nat, j: nat)
    requires |b| == 16
    ensures IdAt(NewGuidV4(b), start, i) == IdAt(NewGuidV4(b), start, j) <==> (i - j) % 0x1_0000_0000 == 0
    ensures IdAt(NewGuidV4(b), start, i) != EMPTY_ID
  {
    hide NewGuidV4;
    GuidV4NotEmpty(b);
    SameResidue(start + i, start + j);
  }

  class MessageFactory {
    const prefix: GuidValue
    var index: u32

    constructor (random: seq<byte>)
      requires |random| == 16
      ensures prefix == NewGuidV4(random) && index == 0
    {
      prefix, index := NewGuidV4(random), 0;
    }

    method Next() returns (id: MessageId)
      modifies this
      ensures id == IdAt(prefix, old(index), 1) && index == id.index
      ensures id.guid == prefix && id.index == if old(index) == 0xFFFF_FFFF then 0 else old(index) + 1
    {
      index := (index as int + 1) % 0x1_0000_0000;
      id := MessageId(prefix, index);
    }

    /** Only an empty id is replaced. */
    method FillMessageId(h: Headers) returns (filled: Headers)
      modifies this
      ensures filled == if h.id == EMPTY_ID then h.(id := IdAt(prefix, old(index), 1)) else h
      ensures index == if h.id == EMPTY_ID then IdAt(prefix, old(index), 1).index else old(index)
    {
      filled := h;
      if h.id == EMPTY_ID {
        var id := Next();
        filled := h.(id := id);
      }
    }

    method NewMessage() returns (m: Message)
      modifies this
      ensures m == Message(NO_HEADERS.(id := IdAt(prefix, old(index), 1)), None) && index == m.headers.id.index
    {
      var h := FillMessageId(NO_HEADERS);
      m := Message(h, None);
    }
  }
}
