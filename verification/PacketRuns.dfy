/** Every packet of every run: built, then stored or refused, then sent or waiting. */
module PacketRuns {
  import opened Bytes
  import opened Executive
  import opened MicroSteps
  import opened Runs
  import opened Safety
  import PusTm
  import ReportGrammar
  import TmPacket
  import TmStore

  /** The packet a step sends. */
  function Leaving(o: Obsw, m: Micro): seq<bytes> {
    if m.Send? && o.s1.down.queue != [] then [o.s1.down.queue[0]] else []
  }

  /** The packets some steps send, in order. */
  function SentBy(c: Config, o: Obsw, ms: seq<Micro>): seq<bytes> {
    if ms == [] then []
    else
      var n := |ms| - 1;
      SentBy(c, o, ms[..n]) + Leaving(After(c, o, ms[..n]), ms[n])
  }

  /** How many packets a step builds. */
  function Count(c: Config, o: Obsw, m: Micro): nat {
    var n := |Apply(c, o, m).s1.down.log| - |o.s1.down.log|;
    if n < 0 then 0 else n
  }

  /** For each packet a step builds, whether it is stored: those that still find room. */
  function Stores(c: Config, o: Obsw, m: Micro): (r: seq<bool>)
    ensures |r| == Count(c, o, m)
  {
    var n := Count(c, o, m);
    seq(n, i => i < PusTm.Room(o.s1.down, n))
  }

  /** The same for some steps. */
  function StoredBy(c: Config, o: Obsw, ms: seq<Micro>): seq<bool> {
    if ms == [] then []
    else
      var n := |ms| - 1;
      StoredBy(c, o, ms[..n]) + Stores(c, After(c, o, ms[..n]), ms[n])
  }

  /** The octets of the packets that were stored. */
  function Stored(ps: seq<TmPacket.Packet>, flags: seq<bool>): seq<bytes>
    requires |ps| == |flags| && PusTm.AllFit(ps)
  {
    if ps == [] then []
    else
      var n := |ps| - 1;
      Stored(ps[..n], flags[..n]) + if flags[n] then [TmPacket.Encode(ps[n])] else []
  }

  lemma {:induction false} StoredConcat(x: seq<TmPacket.Packet>, f: seq<bool>, y: seq<TmPacket.Packet>, g: seq<bool>)
    requires |x| == |f| && |y| == |g| && PusTm.AllFit(x) && PusTm.AllFit(y)
    ensures Stored(x + y, f + g) == Stored(x, f) + Stored(y, g)
  {
    hide TmPacket.Encode;
    if y == [] {
      assert x + y == x && f + g == f;
    } else {
      var n := |y| - 1;
      StoredConcat(x, f, y[..n], g[..n]);
      assert (x + y)[..|x| + n] == x + y[..n] && (f + g)[..|f| + n] == f + g[..n];
    }
  }

  /** Where the first k are stored, those are what is stored. */
  lemma {:induction false} StoredFirst(ps: seq<TmPacket.Packet>, flags: seq<bool>, k: nat)
    requires |ps| == |flags| && PusTm.AllFit(ps) && k <= |ps|
    requires forall i | 0 <= i < |flags| :: flags[i] <==> i < k
    ensures Stored(ps, flags) == PusTm.EncodeAll(ps[..k])
  {
    hide TmPacket.Encode;
    if ps == [] {
      assert ps[..k] == [];
    } else {
      var n := |ps| - 1;
      StoredFirst(ps[..n], flags[..n], if k <= n then k else n);
      if k <= n {
        assert ps[..n][..k] == ps[..k];
      } else {
        assert ps[..n][..n] == ps[..n] && ps[..k] == ps;
      }
    }
  }

  /** From a to b: what left and what waits are what waited and what was stored of the packets built. */
  ghost predicate Balanced(a: PusTm.Downlink, b: PusTm.Downlink, left: seq<bytes>, flags: seq<bool>) {
    && a.log <= b.log && |flags| == |b.log| - |a.log| && PusTm.AllFit(b.log[|a.log|..])
    && left + b.queue == a.queue + Stored(b.log[|a.log|..], flags)
  }

  lemma BalancedSelf(d: PusTm.Downlink)
    ensures Balanced(d, d, [], [])
  {
    assert d.log[|d.log|..] == [] && d.queue + [] == d.queue && [] + d.queue == d.queue;
  }

  lemma BalancedTrans(a: PusTm.Downlink, b: PusTm.Downlink, d: PusTm.Downlink,
                      x: seq<bytes>, f: seq<bool>, y: seq<bytes>, g: seq<bool>)
    requires Balanced(a, b, x, f) && Balanced(b, d, y, g)
    ensures Balanced(a, d, x + y, f + g)
  {
    var p, q := b.log[|a.log|..], d.log[|b.log|..];
    assert d.log[|a.log|..] == p + q;
    StoredConcat(p, f, q, g);
    assert x + y + d.queue == x + (y + d.queue);
    assert x + (b.queue + Stored(q, g)) == (x + b.queue) + Stored(q, g);
    assert a.queue + Stored(p, f) + Stored(q, g) == a.queue + (Stored(p, f) + Stored(q, g));
  }

  lemma BuiltBalanced(a: PusTm.Downlink, b: PusTm.Downlink, flags: seq<bool>)
    requires PusTm.Built(a, b) && |flags| == |b.log| - |a.log|
    requires forall i | 0 <= i < |flags| :: flags[i] <==> i < PusTm.Room(a, |flags|)
    ensures Balanced(a, b, [], flags)
  {
    hide PusTm.Room, Stored, TmPacket.Encode;
    var ps := b.log[|a.log|..];
    PusTm.OfferAllIs(a, ps);
    StoredFirst(ps, flags, PusTm.Room(a, |ps|));
    assert [] + b.queue == b.queue;
  }

  lemma StepBalanced(c: Config, o: Obsw, m: Micro)
    ensures Balanced(o.s1.down, Apply(c, o, m).s1.down, Leaving(o, m), Stores(c, o, m))
  {
    hide PusTm.Built, PusTm.Room, Balanced, ReportGrammar.Sane;
    var a, b := o.s1.down, Apply(c, o, m).s1.down;
    if m == Send {
      SendBalanced(a);
      assert Stores(c, o, m) == [];
    } else {
      hide Apply;
      StepsOnlyAdd(c, o, m);
      BuiltLog(a, b);
      BuiltBalanced(a, b, Stores(c, o, m));
    }
  }

  lemma BuiltLog(a: PusTm.Downlink, b: PusTm.Downlink)
    requires PusTm.Built(a, b)
    ensures a.log <= b.log
  {
  }

  lemma SendBalanced(d: PusTm.Downlink)
    ensures Balanced(d, Sent(d), if d.queue == [] then [] else [d.queue[0]], [])
  {
    BalancedSelf(d);
    if d.queue != [] {
      assert [d.queue[0]] + d.queue[1..] == d.queue;
    }
  }

  lemma {:induction false} StepsBalanced(c: Config, o: Obsw, ms: seq<Micro>)
    ensures Balanced(o.s1.down, After(c, o, ms).s1.down, SentBy(c, o, ms), StoredBy(c, o, ms))
  {
    hide Apply, Balanced, Leaving, Stores;
    if ms == [] {
      BalancedSelf(o.s1.down);
    } else {
      var n := |ms| - 1;
      var before := After(c, o, ms[..n]);
      StepsBalanced(c, o, ms[..n]);
      StepBalanced(c, before, ms[n]);
      BalancedTrans(o.s1.down, before.s1.down, After(c, o, ms).s1.down,
                    SentBy(c, o, ms[..n]), StoredBy(c, o, ms[..n]), Leaving(before, ms[n]), Stores(c, before, ms[n]));
    }
  }

  /**
    Between any two steps of any run: the packets sent so far and those waiting are, octet for octet and in
    order, those that waited at the start and those built since and stored; every packet built was stored or
    refused, as its flag says.
    */
  lemma PacketsConserved(c: Config, o: Obsw, inputs: seq<Input>, k: nat)
    requires k <= |RunMicros(c, o, inputs)|
    ensures var ms := RunMicros(c, o, inputs)[..k];
      var a, b := o.s1.down, After(c, o, ms).s1.down;
      && a.log <= b.log && |StoredBy(c, o, ms)| == |b.log| - |a.log| && PusTm.AllFit(b.log[|a.log|..])
      && SentBy(c, o, ms) + b.queue == a.queue + Stored(b.log[|a.log|..], StoredBy(c, o, ms))
  {
    hide RunMicros, After, SentBy, StoredBy, Stored;
    StepsBalanced(c, o, RunMicros(c, o, inputs)[..k]);
  }

  /** A step refuses a packet if and only if it builds more than there is room for, and then the store is full
      at its end: no packet is lost while there is room. */
  lemma RefusedOnlyWhenFull(c: Config, o: Obsw, m: Micro)
    requires |o.s1.down.queue| <= TmStore.CAPACITY
    ensures (false in Stores(c, o, m)) <==> |o.s1.down.queue| + Count(c, o, m) > TmStore.CAPACITY
    ensures (false in Stores(c, o, m)) ==> |Apply(c, o, m).s1.down.queue| == TmStore.CAPACITY
  {
    hide Apply, ReportGrammar.Sane, PusTm.Built;
    var a, b, n := o.s1.down, Apply(c, o, m).s1.down, Count(c, o, m);
    var flags := Stores(c, o, m);
    if |a.queue| + n > TmStore.CAPACITY {
      assert !flags[n - 1];
      if m != Send {
        StepsOnlyAdd(c, o, m);
        QueueAfter(a, b);
      } else {
        SendBuildsNothing(c, o);
      }
    }
  }

  lemma SendBuildsNothing(c: Config, o: Obsw)
    ensures Count(c, o, Send) == 0
  {
  }

  lemma QueueAfter(a: PusTm.Downlink, b: PusTm.Downlink)
    requires PusTm.Built(a, b)
    ensures a.log <= b.log && |b.queue| == |a.queue| + PusTm.Room(a, |b.log| - |a.log|)
  {
    hide PusTm.Room, TmPacket.Encode;
    PusTm.OfferAllIs(a, b.log[|a.log|..]);
  }
}
