/** The TM packet builder of `src/pus/pus_tm.c`: every report of every service goes through it. */
module PusTm {
  import opened Bytes
  import SpacePacket
  import TmPacket
  import TmStore

  datatype Status = Ok | ErrTooLarge | ErrStore

  /** The downlink as services see it: packets waiting in the store, and all packets ever built. */
  datatype Downlink = Downlink(queue: seq<bytes>, log: seq<TmPacket.Packet>) {
    predicate HasRoom(p: TmPacket.Packet) {
      p.Fits() && |queue| < TmStore.CAPACITY
    }

    /** Build p and store it if there is room. A packet over the size limit is not built at all. */
    function Offer(p: TmPacket.Packet): Downlink {
      if !p.Fits() then this
      else Downlink(if HasRoom(p) then queue + [TmPacket.Encode(p)] else queue, log + [p])
    }
  }

  ghost function View(store: TmStore.TmStore): Downlink
    requires store.Valid()
    reads store, store.slots
  {
    Downlink(store.Contents(), store.log)
  }

  /** The secondary header part of the builder. */
  method WriteSecondary(p: TmPacket.Packet, buf: array<u8>)
    requires buf.Length >= 17
    modifies buf
    ensures buf[..17] == old(buf[..6]) + TmPacket.SecondaryHeader(p)
    ensures buf[17..] == old(buf[17..])
  {
    buf[6], buf[7], buf[8] := TmPacket.PUS_VERSION, p.service, p.subservice;
    buf[9], buf[10] := p.msgCounter / 0x100, p.msgCounter % 0x100;
    buf[11], buf[12] := p.destId / 0x100, p.destId % 0x100;
    var hi, lo := p.timestamp / U16, p.timestamp % U16;
    buf[13], buf[14], buf[15], buf[16] := hi / 0x100, hi % 0x100, lo / 0x100, lo % 0x100;
    SecondaryParts(p, buf[6..17]);
    assert buf[..17] == buf[..6] + buf[6..17];
  }

  lemma SecondaryParts(p: TmPacket.Packet, b: bytes)
    requires |b| == 11 && b[0] == TmPacket.PUS_VERSION && b[1] == p.service && b[2] == p.subservice
    requires b[3] == p.msgCounter / 0x100 && b[4] == p.msgCounter % 0x100
    requires b[5] == p.destId / 0x100 && b[6] == p.destId % 0x100
    requires var hi, lo := p.timestamp / U16, p.timestamp % U16;
      b[7] == hi / 0x100 && b[8] == hi % 0x100 && b[9] == lo / 0x100 && b[10] == lo % 0x100
    ensures b == TmPacket.SecondaryHeader(p)
  {
  }

  /** The application data. */
  method WriteData(data: bytes, buf: array<u8>)
    requires 17 + |data| <= buf.Length
    modifies buf
    ensures buf[..17 + |data|] == old(buf[..17]) + data
  {
    forall i | 0 <= i < |data| {
      buf[17 + i] := data[i];
    }
  }

  /** `obsw_pus_tm_build`. The precondition keeps the 16-bit length sums from wrapping. */
  method Build(store: TmStore.TmStore, p: TmPacket.Packet) returns (r: Status)
    requires store.Valid() && |p.data| <= TmPacket.NO_WRAP_LEN
    modifies store, store.slots
    ensures store.Valid()
    ensures View(store) == old(View(store)).Offer(p)
    ensures r == if !p.Fits() then ErrTooLarge else if old(View(store)).HasRoom(p) then Ok else ErrStore
  {
    var payloadLen: u16 := TmPacket.SEC_HDR_LEN + |p.data|;
    var total: u16 := SpacePacket.HEADER_LEN + payloadLen;
    if total > TmPacket.MAX_PACKET_LEN {
      return ErrTooLarge;
    }
    var buf := new u8[TmPacket.MAX_PACKET_LEN](_ => 0);
    SpacePacket.EncodePrimary(
      SpacePacket.Header(0, SpacePacket.TYPE_TM, 1, p.apid, SpacePacket.SEQ_UNSEGMENTED, p.seqCount, payloadLen - 1),
      buf);
    WriteSecondary(p, buf);
    WriteData(p.data, buf);
    store.log := store.log + [p];
    var rc := store.Enqueue(buf[..total]);
    r := if rc == TmStore.Ok then Ok else ErrStore;
  }

  /** A downlink whose waiting packets are, in order, among those built. */
  ghost predicate Faithful(d: Downlink) {
    exists sent :: Waiting(d, sent)
  }

  /** The store holds the encodings of the log entries whose indices are listed in `sent`. */
  ghost predicate Waiting(d: Downlink, sent: seq<nat>) {
    && |sent| == |d.queue|
    && (forall i | 0 <= i < |sent| :: sent[i] < |d.log| && d.log[sent[i]].Fits()
                                      && d.queue[i] == TmPacket.Encode(d.log[sent[i]]))
    && forall i, j | 0 <= i < j < |sent| :: sent[i] < sent[j]
  }

  lemma EmptyFaithful(log: seq<TmPacket.Packet>)
    ensures Faithful(Downlink([], log))
  {
    assert Waiting(Downlink([], log), []);
  }

  lemma OfferFaithful(d: Downlink, p: TmPacket.Packet)
    requires Faithful(d)
    ensures Faithful(d.Offer(p))
  {
    var sent: seq<nat> :| Waiting(d, sent);
    if d.HasRoom(p) {
      var more: seq<nat> := sent + [|d.log|];
      assert Waiting(d.Offer(p), more);
    } else {
      assert Waiting(d.Offer(p), sent);
    }
  }

  // ----- Packets built together -----------------------------------------------------------------------------

  predicate AllFit(ps: seq<TmPacket.Packet>) {
    forall i | 0 <= i < |ps| :: ps[i].Fits()
  }

  /** Packets built in turn, with nothing sent in between. */
  function OfferAll(d: Downlink, ps: seq<TmPacket.Packet>): Downlink {
    if ps == [] then d else OfferAll(d, ps[..|ps| - 1]).Offer(ps[|ps| - 1])
  }

  lemma {:induction false} OfferAllConcat(d: Downlink, x: seq<TmPacket.Packet>, y: seq<TmPacket.Packet>)
    ensures OfferAll(d, x + y) == OfferAll(OfferAll(d, x), y)
  {
    if y == [] {
      assert x + y == x;
    } else {
      assert (x + y)[..|x + y| - 1] == x + y[..|y| - 1];
      OfferAllConcat(d, x, y[..|y| - 1]);
    }
  }

  /** The octets of packets. */
  function EncodeAll(ps: seq<TmPacket.Packet>): (r: seq<bytes>)
    requires AllFit(ps)
    ensures |r| == |ps|
  {
    seq(|ps|, i requires 0 <= i < |ps| => TmPacket.Encode(ps[i]))
  }

  /** How many of n packets find room. */
  function Room(d: Downlink, n: nat): (r: nat)
    ensures r <= n
  {
    if |d.queue| + n <= TmStore.CAPACITY then n
    else if |d.queue| <= TmStore.CAPACITY then TmStore.CAPACITY - |d.queue| else 0
  }

  /** Of packets built in turn the first are stored, until the store is full, and the others are refused. */
  lemma {:induction false} OfferAllIs(d: Downlink, ps: seq<TmPacket.Packet>)
    requires AllFit(ps)
    ensures OfferAll(d, ps) == Downlink(d.queue + EncodeAll(ps[..Room(d, |ps|)]), d.log + ps)
  {
    if ps == [] {
      assert ps[..0] == [] && d.queue + [] == d.queue && d.log + [] == d.log;
    } else {
      var n := |ps| - 1;
      OfferAllIs(d, ps[..n]);
      RoomStep(d, ps, n);
      assert d.log + ps[..n] + [ps[n]] == d.log + ps;
    }
  }

  lemma RoomStep(d: Downlink, ps: seq<TmPacket.Packet>, n: nat)
    requires AllFit(ps) && |ps| == n + 1
    ensures var k := Room(d, n);
      && k <= n && ps[..n][..k] == ps[..k]
      && EncodeAll(ps[..Room(d, n + 1)])
           == EncodeAll(ps[..k]) + if |d.queue| + k < TmStore.CAPACITY then [TmPacket.Encode(ps[n])] else []
  {
    hide TmPacket.Encode;
    var k := Room(d, n);
    assert EncodeAll(ps[..k]) + [] == EncodeAll(ps[..k]);
    if |d.queue| + k < TmStore.CAPACITY {
      assert k == n && ps[..n + 1] == ps;
    }
  }

  /** From a to b packets were built, and nothing else happened. */
  ghost predicate Built(a: Downlink, b: Downlink) {
    a.log <= b.log && AllFit(b.log[|a.log|..]) && b == OfferAll(a, b.log[|a.log|..])
  }

  lemma BuiltSelf(d: Downlink)
    ensures Built(d, d)
  {
  }

  lemma BuiltOffer(d: Downlink, p: TmPacket.Packet)
    ensures Built(d, d.Offer(p))
  {
    hide TmPacket.Encode;
    if p.Fits() {
      assert (d.log + [p])[|d.log|..] == [p] && [p][..0] == [];
      assert OfferAll(d, []) == d;
    }
  }

  lemma BuiltTrans(a: Downlink, b: Downlink, d: Downlink)
    requires Built(a, b) && Built(b, d)
    ensures Built(a, d)
  {
    var x, y := b.log[|a.log|..], d.log[|b.log|..];
    assert d.log[|a.log|..] == x + y;
    OfferAllConcat(a, x, y);
  }

  /** Draining removes packets from the front only. */
  lemma DrainFaithful(d: Downlink)
    requires Faithful(d) && d.queue != []
    ensures Faithful(d.(queue := d.queue[1..]))
  {
    var sent: seq<nat> :| Waiting(d, sent);
    assert Waiting(d.(queue := d.queue[1..]), sent[1..]);
  }

  /** Every waiting packet reads back as a packet some service built. */
  lemma WaitingReadsBack(d: Downlink, i: nat)
    requires Faithful(d) && i < |d.queue|
    ensures exists k :: 0 <= k < |d.log| && TmPacket.Decode(d.queue[i])
              == Some(d.log[k].(apid := d.log[k].apid % 0x800, seqCount := d.log[k].seqCount % 0x4000))
  {
    var sent: seq<nat> :| Waiting(d, sent);
    TmPacket.DecodeEncode(d.log[sent[i]]);
  }
}
