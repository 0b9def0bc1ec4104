/** The TM store of `src/tm/store.c`: a ring of 32 slots that refines a queue of 31 packets. */
module TmStore {
  import opened Bytes
  import TmPacket

  /** OBSW_TM_STORE_SLOTS: a power of two, so the C mask `& (SLOTS - 1)` is a remainder. */
  const SLOTS := 32
  const CAPACITY := 31

  /** One slot: a full-size buffer of which the first len octets are the packet. */
  datatype Slot = Slot(data: bytes, len: u16) {
    predicate Valid() {
      |data| == TmPacket.MAX_PACKET_LEN && len <= TmPacket.MAX_PACKET_LEN
    }

    function Packet(): bytes
      requires Valid()
    {
      data[..len]
    }
  }

  datatype Status = Ok | Full | Empty | TooLarge

  function NextSlot(i: nat): (r: nat)
    ensures r < SLOTS
  {
    (i + 1) % SLOTS
  }

  /** The slot of the i-th oldest packet. */
  function Index(tail: nat, i: nat): (r: nat)
    ensures r < SLOTS
  {
    (tail + i) % SLOTS
  }

  /** How many packets lie between tail and head. */
  function Used(head: nat, tail: nat): (n: nat)
    ensures n <= CAPACITY
  {
    (head - tail) % SLOTS
  }

  /** The packets between tail and head, oldest first. */
  function Ring(s: seq<Slot>, head: nat, tail: nat): (q: seq<bytes>)
    requires |s| == SLOTS && forall i | 0 <= i < SLOTS :: s[i].Valid()
    ensures |q| == Used(head, tail)
  {
    seq(Used(head, tail), i requires 0 <= i => s[Index(tail, i)].Packet())
  }

  lemma UsedPush(head: nat, tail: nat)
    requires head < SLOTS && tail < SLOTS && NextSlot(head) != tail
    ensures Used(NextSlot(head), tail) == Used(head, tail) + 1
    ensures Index(tail, Used(head, tail)) == head
    ensures forall i: nat | i < Used(head, tail) :: Index(tail, i) != head
  {
    hide NextSlot, Index, Used;
    NextIs(head);
    UsedIs(head, tail);
    UsedIs(NextSlot(head), tail);
    IndexIs(tail, Used(head, tail));
    forall i: nat | i < Used(head, tail) ensures Index(tail, i) != head {
      IndexIs(tail, i);
    }
  }

  lemma NextIs(i: nat)
    requires i < SLOTS
    ensures NextSlot(i) == if i + 1 < SLOTS then i + 1 else 0
  {
  }

  lemma UsedIs(head: nat, tail: nat)
    requires head < SLOTS && tail < SLOTS
    ensures Used(head, tail) == if head >= tail then head - tail else head - tail + SLOTS
  {
  }

  lemma IndexIs(tail: nat, i: nat)
    requires tail < SLOTS && i < SLOTS
    ensures Index(tail, i) == if tail + i < SLOTS then tail + i else tail + i - SLOTS
  {
  }

  lemma UsedPop(head: nat, tail: nat)
    requires head < SLOTS && tail < SLOTS && head != tail
    ensures Used(head, NextSlot(tail)) == Used(head, tail) - 1
    ensures Index(tail, 0) == tail
    ensures forall i: nat | i < CAPACITY :: Index(NextSlot(tail), i) == Index(tail, i + 1)
  {
    hide NextSlot, Index, Used;
    NextIs(tail);
    UsedIs(head, tail);
    UsedIs(head, NextSlot(tail));
    IndexIs(tail, 0);
    forall i: nat | i < CAPACITY ensures Index(NextSlot(tail), i) == Index(tail, i + 1) {
      IndexIs(NextSlot(tail), i);
      IndexIs(tail, i + 1);
    }
  }

  /** Writing the slot at head and publishing it appends one packet, wrapped or not. */
  lemma RingPush(s: seq<Slot>, head: nat, tail: nat, x: Slot)
    requires |s| == SLOTS && (forall i | 0 <= i < SLOTS :: s[i].Valid()) && x.Valid()
    requires head < SLOTS && tail < SLOTS && NextSlot(head) != tail
    ensures Ring(s[head := x], NextSlot(head), tail) == Ring(s, head, tail) + [x.Packet()]
  {
    UsedPush(head, tail);
  }

  /** Advancing tail removes the oldest packet. */
  lemma RingPop(s: seq<Slot>, head: nat, tail: nat)
    requires |s| == SLOTS && forall i | 0 <= i < SLOTS :: s[i].Valid()
    requires head < SLOTS && tail < SLOTS && head != tail
    ensures Ring(s, head, tail) == [s[tail].Packet()] + Ring(s, head, NextSlot(tail))
  {
    UsedPop(head, tail);
  }

  class TmStore {
    const slots: array<Slot>
    var head: nat
    var tail: nat
    /** Every TM packet built so far, whether or not the store had room for it. */
    ghost var log: seq<TmPacket.Packet>

    ghost predicate Valid()
      reads this, slots
    {
      && slots.Length == SLOTS && head < SLOTS && tail < SLOTS
      && forall i | 0 <= i < SLOTS :: slots[i].Valid()
    }

    /** The packets held, oldest first. */
    ghost function Contents(): (q: seq<bytes>)
      requires Valid()
      reads this, slots
      ensures |q| <= CAPACITY
    {
      Ring(slots[..], head, tail)
    }

    /** No packet held is larger than a slot. */
    lemma PacketsFit()
      requires Valid()
      ensures forall i | 0 <= i < |Contents()| :: |Contents()[i]| <= TmPacket.MAX_PACKET_LEN
    {
    }

    constructor ()
      ensures Valid() && fresh(slots) && Contents() == [] && log == []
    {
      slots := new Slot[SLOTS](_ => Slot(seq(TmPacket.MAX_PACKET_LEN, _ => 0), 0));
      head, tail := 0, 0;
      log := [];
    }

    /** `obsw_tm_store_enqueue`. */
    method Enqueue(pkt: bytes) returns (r: Status)
      requires Valid() && |pkt| < U16
      modifies this`head, slots
      ensures Valid()
      ensures r == if |pkt| > TmPacket.MAX_PACKET_LEN then TooLarge
                   else if |old(Contents())| == CAPACITY then Full else Ok
      ensures Contents() == if r == Ok then old(Contents()) + [pkt] else old(Contents())
    {
      var len := |pkt|;
      if len > TmPacket.MAX_PACKET_LEN {
        return TooLarge;
      }
      if NextSlot(head) == tail {
        return Full;
      }
      var filled := Slot(pkt + slots[head].data[len..], len);
      RingPush(slots[..], head, tail, filled);
      slots[head] := filled;
      head := NextSlot(head);
      assert slots[..] == old(slots[..])[old(head) := filled];
      r := Ok;
    }

    /** `obsw_tm_store_dequeue`: on success the packet is at the front of buf and len is its length. */
    method Dequeue(buf: array<u8>) returns (r: Status, len: u16)
      requires Valid()
      modifies this`tail, buf
      ensures Valid() && len <= buf.Length
      ensures r == if old(Contents()) == [] then Empty
                   else if buf.Length < |old(Contents())[0]| then TooLarge else Ok
      ensures r == Ok ==> buf[..len] == old(Contents())[0] && Contents() == old(Contents())[1..]
      ensures r != Ok ==> Contents() == old(Contents())
      ensures buf[len..] == old(buf[len..])
    {
      if head == tail {
        return Empty, 0;
      }
      RingPop(slots[..], head, tail);
      var slot := slots[tail];
      if buf.Length < slot.len {
        return TooLarge, 0;
      }
      forall i | 0 <= i < slot.len {
        buf[i] := slot.data[i];
      }
      tail := NextSlot(tail);
      r, len := Ok, slot.len;
    }

    /** `obsw_tm_store_count`. */
    method Count() returns (n: nat)
      requires Valid()
      ensures n == |Contents()|
    {
      n := (head - tail) % SLOTS;
    }
  }
}
