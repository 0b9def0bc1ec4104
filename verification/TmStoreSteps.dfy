/**
  The TM store with one producer task and one consumer task: `src/tm/store.c` as individual accesses
  to slots, head and tail, in any interleaving. Each step is one octet copied or one shared variable
  read or written.
  */
module TmStoreSteps {
  import opened Bytes
  import TmPacket
  import opened TmStore

  /** Where the producer is in `obsw_tm_store_enqueue`. */
  datatype Producer = Idle | Copying(pkt: bytes, done: nat) | Sized(pkt: bytes)

  /** Where the consumer is in `obsw_tm_store_dequeue`, and what it has copied out. */
  datatype Consumer = Waiting | Looking(room: nat) | Reading(len: nat, got: bytes)

  /** The shared ring, both tasks, and the histories of accepted and delivered packets. */
  datatype State = State(
    slots: seq<Slot>, head: nat, tail: nat, producer: Producer, consumer: Consumer,
    accepted: seq<bytes>, delivered: seq<bytes>)

  datatype Access =
    | Offer(pkt: bytes)      // compare next head with tail
    | CopyIn                 // one octet into the slot at head
    | WriteLen               // the length of the slot at head
    | Publish                // head
    | Ask(room: nat)         // compare head with tail
    | ReadLen                // the length of the slot at tail
    | CopyOut                // one octet of the slot at tail
    | Free                   // tail

  ghost predicate RingOk(slots: seq<Slot>, head: nat, tail: nat) {
    |slots| == SLOTS && head < SLOTS && tail < SLOTS && forall i | 0 <= i < SLOTS :: slots[i].Valid()
  }

  function Put(slots: seq<Slot>, head: nat, i: nat, b: u8): seq<Slot> {
    if head < |slots| && i < |slots[head].data| then slots[head := slots[head].(data := slots[head].data[i := b])]
    else slots
  }

  function PutLen(slots: seq<Slot>, head: nat, n: nat): seq<Slot> {
    if head < |slots| && n < U16 then slots[head := slots[head].(len := n)] else slots
  }

  function ProducerStep(s: State, a: Access): State
    requires a.Offer? || a.CopyIn? || a.WriteLen? || a.Publish?
  {
    match (a, s.producer)
    case (Offer(pkt), Idle) =>
      if |pkt| > TmPacket.MAX_PACKET_LEN || NextSlot(s.head) == s.tail then s
      else s.(producer := Copying(pkt, 0), accepted := s.accepted + [pkt])
    case (CopyIn, Copying(pkt, n)) =>
      if n < |pkt| then s.(slots := Put(s.slots, s.head, n, pkt[n]), producer := Copying(pkt, n + 1)) else s
    case (WriteLen, Copying(pkt, n)) =>
      if n == |pkt| then s.(slots := PutLen(s.slots, s.head, n), producer := Sized(pkt)) else s
    case (Publish, Sized(pkt)) => s.(head := NextSlot(s.head), producer := Idle)
    case _ => s
  }

  function ConsumerStep(s: State, a: Access): State
    requires a.Ask? || a.ReadLen? || a.CopyOut? || a.Free?
  {
    if s.tail >= |s.slots| then s
    else
    match (a, s.consumer)
    case (Ask(room), Waiting) => if s.head == s.tail then s else s.(consumer := Looking(room))
    case (ReadLen, Looking(room)) =>
      var n := s.slots[s.tail].len;
      if room < n then s.(consumer := Waiting) else s.(consumer := Reading(n, []))
    case (CopyOut, Reading(n, got)) =>
      if |got| < n && |got| < |s.slots[s.tail].data| then
        s.(consumer := Reading(n, got + [s.slots[s.tail].data[|got|]]))
      else s
    case (Free, Reading(n, got)) =>
      if |got| == n then s.(tail := NextSlot(s.tail), consumer := Waiting, delivered := s.delivered + [got]) else s
    case _ => s
  }

  /** One access; an access its task cannot make now changes nothing. */
  function Next(s: State, a: Access): State {
    if a.Offer? || a.CopyIn? || a.WriteLen? || a.Publish? then ProducerStep(s, a) else ConsumerStep(s, a)
  }

  // ----- The invariant ------------------------------------------------------------------------------

  /** The packet being written, once its writing has begun. */
  function InProgress(p: Producer): seq<bytes> {
    if p.Idle? then [] else [p.pkt]
  }

  ghost predicate ProducerOk(s: State)
    requires RingOk(s.slots, s.head, s.tail)
  {
    var slot := s.slots[s.head];
    match s.producer
    case Idle => true
    case Copying(pkt, n) =>
      NextSlot(s.head) != s.tail && n <= |pkt| <= TmPacket.MAX_PACKET_LEN && slot.data[..n] == pkt[..n]
    case Sized(pkt) => NextSlot(s.head) != s.tail && slot.Packet() == pkt
  }

  ghost predicate ConsumerOk(s: State)
    requires RingOk(s.slots, s.head, s.tail)
  {
    var slot := s.slots[s.tail];
    match s.consumer
    case Waiting => true
    case Looking(_) => s.head != s.tail
    case Reading(n, got) => s.head != s.tail && n == slot.len && |got| <= n && got == slot.data[..|got|]
  }

  /** What was accepted has been delivered, waits in the ring, or is being written; in that order. */
  ghost predicate Inv(s: State) {
    && RingOk(s.slots, s.head, s.tail)
    && s.accepted == s.delivered + Ring(s.slots, s.head, s.tail) + InProgress(s.producer)
    && ProducerOk(s) && ConsumerOk(s)
  }

  /** Writing the slot at head is invisible in the ring. */
  lemma HeadUnseen(s: seq<Slot>, head: nat, tail: nat, x: Slot)
    requires RingOk(s, head, tail) && x.Valid() && NextSlot(head) != tail
    ensures RingOk(s[head := x], head, tail) && Ring(s[head := x], head, tail) == Ring(s, head, tail)
  {
    UsedPush(head, tail);
    var r, q := Ring(s[head := x], head, tail), Ring(s, head, tail);
    forall i: nat | i < |q| ensures r[i] == q[i] {
      assert Index(tail, i) != head;
    }
  }

  lemma CopyInKeeps(s: State)
    requires Inv(s) && s.producer.Copying? && s.producer.done < |s.producer.pkt|
    ensures Inv(ProducerStep(s, CopyIn))
  {
    hide Ring, NextSlot;
    var n, slot := s.producer.done, s.slots[s.head];
    var x := slot.(data := slot.data[n := s.producer.pkt[n]]);
    HeadUnseen(s.slots, s.head, s.tail, x);
    assert x.data[..n + 1] == s.producer.pkt[..n + 1];
  }

  lemma WriteLenKeeps(s: State)
    requires Inv(s) && s.producer.Copying? && s.producer.done == |s.producer.pkt|
    ensures Inv(ProducerStep(s, WriteLen))
  {
    hide Ring, NextSlot;
    var pkt := s.producer.pkt;
    HeadUnseen(s.slots, s.head, s.tail, s.slots[s.head].(len := |pkt|));
    assert pkt[..|pkt|] == pkt;
  }

  lemma PublishKeeps(s: State)
    requires Inv(s) && s.producer.Sized?
    ensures Inv(ProducerStep(s, Publish))
  {
    hide Ring;
    RingPush(s.slots, s.head, s.tail, s.slots[s.head]);
    assert s.slots[s.head := s.slots[s.head]] == s.slots;
    var ring := Ring(s.slots, s.head, s.tail);
    assert s.delivered + ring + [s.producer.pkt] == s.delivered + (ring + [s.producer.pkt]) + [];
  }

  lemma OfferKeeps(s: State, pkt: bytes)
    requires Inv(s)
    ensures Inv(ProducerStep(s, Offer(pkt)))
  {
    hide Ring, NextSlot;
  }

  lemma CopyOutKeeps(s: State)
    requires Inv(s) && s.consumer.Reading?
    ensures Inv(ConsumerStep(s, CopyOut))
  {
    hide Ring, NextSlot;
  }

  lemma FreeKeeps(s: State)
    requires Inv(s) && s.consumer.Reading? && |s.consumer.got| == s.consumer.len
    ensures Inv(ConsumerStep(s, Free))
  {
    hide Ring;
    RingPop(s.slots, s.head, s.tail);
    var rest := Ring(s.slots, s.head, NextSlot(s.tail));
    var got := s.consumer.got;
    assert s.delivered + ([got] + rest) + InProgress(s.producer)
        == s.delivered + [got] + rest + InProgress(s.producer);
  }

  /** Every access of either task keeps the invariant. */
  lemma NextKeeps(s: State, a: Access)
    requires Inv(s)
    ensures Inv(Next(s, a))
  {
    hide Ring, NextSlot, InProgress;
    match a {
      case Offer(pkt) => OfferKeeps(s, pkt);
      case CopyIn =>
        if s.producer.Copying? && s.producer.done < |s.producer.pkt| {
          CopyInKeeps(s);
        }
      case WriteLen =>
        if s.producer.Copying? && s.producer.done == |s.producer.pkt| {
          WriteLenKeeps(s);
        }
      case Publish =>
        if s.producer.Sized? {
          PublishKeeps(s);
        }
      case CopyOut =>
        if s.consumer.Reading? {
          CopyOutKeeps(s);
        }
      case Free =>
        if s.consumer.Reading? && |s.consumer.got| == s.consumer.len {
          FreeKeeps(s);
        }
      case _ =>
    }
  }

  // ----- Runs ---------------------------------------------------------------------------------------

  /** The initialised store, whatever its slots hold. */
  ghost predicate Initial(s: State) {
    && RingOk(s.slots, s.head, s.tail) && s.head == s.tail == 0
    && s.producer == Idle && s.consumer == Waiting && s.accepted == [] && s.delivered == []
  }

  function Run(s: State, accesses: seq<Access>): State {
    if accesses == [] then s else Next(Run(s, accesses[..|accesses| - 1]), accesses[|accesses| - 1])
  }

  lemma {:induction false} RunKeeps(s: State, accesses: seq<Access>)
    requires Inv(s)
    ensures Inv(Run(s, accesses))
  {
    hide Next, Inv;
    if accesses != [] {
      RunKeeps(s, accesses[..|accesses| - 1]);
      NextKeeps(Run(s, accesses[..|accesses| - 1]), accesses[|accesses| - 1]);
    }
  }

  /**
    Under every interleaving of the two tasks' accesses, what has been delivered is the beginning of
    what has been accepted: no packet is lost, doubled, reordered or read half-written; and all that is
    missing is the ring's content, at most 31 packets, and the one being written.
    */
  lemma DeliveredInOrder(s: State, accesses: seq<Access>)
    requires Initial(s)
    ensures var t := Run(s, accesses);
      && RingOk(t.slots, t.head, t.tail)
      && t.delivered <= t.accepted
      && t.accepted[|t.delivered|..] == Ring(t.slots, t.head, t.tail) + InProgress(t.producer)
      && |t.accepted| - |t.delivered| <= CAPACITY + 1
  {
    RunKeeps(s, accesses);
    var t := Run(s, accesses);
    var rest := Ring(t.slots, t.head, t.tail) + InProgress(t.producer);
    assert t.accepted == t.delivered + rest;
  }

  /** Whatever the consumer is doing, a packet of permissible size is turned away exactly when 31 packets
      wait in the ring, the one being read included. */
  lemma RefusedOnlyWhenFull(s: State, pkt: bytes)
    requires Inv(s) && s.producer == Idle && |pkt| <= TmPacket.MAX_PACKET_LEN
    ensures Next(s, Offer(pkt)).producer == Idle <==> |Ring(s.slots, s.head, s.tail)| == CAPACITY
  {
    FullWhen(s.head, s.tail);
  }

  /** The same for the consumer, whatever the producer is doing. */
  lemma RefusedOnlyWhenEmpty(s: State, room: nat)
    requires Inv(s) && s.consumer == Waiting
    ensures Next(s, Ask(room)).consumer == Waiting <==> Ring(s.slots, s.head, s.tail) == []
  {
    FullWhen(s.head, s.tail);
  }

  lemma FullWhen(head: nat, tail: nat)
    requires head < SLOTS && tail < SLOTS
    ensures NextSlot(head) == tail <==> Used(head, tail) == CAPACITY
    ensures head == tail <==> Used(head, tail) == 0
  {
  }

  /** The producer's accesses for one packet. */
  function Enqueueing(n: nat): (r: seq<Access>)
    ensures |r| == n
  {
    seq(n, _ => CopyIn)
  }

  /** Without interference, the producer's steps for one packet append it to the ring, as the
      sequential store does. */
  lemma {:induction false} CopyAlone(s: State, n: nat)
    requires Inv(s) && s.producer.Copying? && s.producer.done == 0 && n <= |s.producer.pkt|
    ensures var t := Run(s, Enqueueing(n));
      && Inv(t)
      && t.producer == Copying(s.producer.pkt, n)
      && t == s.(slots := t.slots, producer := t.producer)
      && Ring(t.slots, t.head, t.tail) == Ring(s.slots, s.head, s.tail)
  {
    hide Ring, NextSlot;
    if n > 0 {
      CopyAlone(s, n - 1);
      assert Enqueueing(n)[..n - 1] == Enqueueing(n - 1);
      var b := Run(s, Enqueueing(n - 1));
      NextKeeps(b, CopyIn);
      var slot := b.slots[b.head];
      HeadUnseen(b.slots, b.head, b.tail, slot.(data := slot.data[n - 1 := b.producer.pkt[n - 1]]));
    }
  }

  lemma EnqueueAlone(s: State, pkt: bytes)
    requires Inv(s) && s.producer == Idle && |pkt| <= TmPacket.MAX_PACKET_LEN && NextSlot(s.head) != s.tail
    ensures var copied := Run(Next(s, Offer(pkt)), Enqueueing(|pkt|));
      var t := Next(Next(copied, WriteLen), Publish);
      && Inv(t) && t.producer == Idle && t.consumer == s.consumer && t.tail == s.tail
      && Ring(t.slots, t.head, t.tail) == Ring(s.slots, s.head, s.tail) + [pkt]
  {
    hide Ring, NextSlot;
    OfferKeeps(s, pkt);
    CopyAlone(Next(s, Offer(pkt)), |pkt|);
    var copied := Run(Next(s, Offer(pkt)), Enqueueing(|pkt|));
    var sized := Next(copied, WriteLen);
    NextKeeps(copied, WriteLen);
    NextKeeps(sized, Publish);
    var slot := copied.slots[copied.head];
    HeadUnseen(copied.slots, copied.head, copied.tail, slot.(len := |pkt|));
    RingPush(sized.slots, sized.head, sized.tail, sized.slots[sized.head]);
    assert sized.slots[sized.head := sized.slots[sized.head]] == sized.slots;
  }
}
