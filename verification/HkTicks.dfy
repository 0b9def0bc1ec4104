/** The housekeeping table over many ticks: each set keeps its own time and reports its own values. */
module HkTicks {
  import opened Bytes
  import opened HkModel
  import HkLayout
  import PusTm
  import TmPacket

  /** Ticks in turn, each with the values its variables hold at that moment. */
  function Ticks(h: Hk, d: PusTm.Downlink, ms: seq<Memory>): (Hk, PusTm.Downlink) {
    if ms == [] then (h, d)
    else
      var (h1, d1) := Ticks(h, d, ms[..|ms| - 1]);
      Tick(h1, d1, ms[|ms| - 1])
  }

  predicate IsReport(p: TmPacket.Packet, id: u8) {
    p.service == 3 && p.subservice == 25 && |p.data| > 0 && p.data[0] == id
  }

  /** The values in the TM(3,25) of a set, in the order built. */
  function Reported(id: u8, log: seq<TmPacket.Packet>): seq<bytes> {
    if log == [] then []
    else
      var p := log[|log| - 1];
      Reported(id, log[..|log| - 1]) + if IsReport(p, id) then [p.data[1..]] else []
  }

  /** A report of these parameters fits a packet, whatever their values. */
  predicate Fits(ps: seq<Param>) {
    1 + HkLayout.Extent(ps) <= MAX_REPORT_DATA
  }

  /** What one set alone reports. */
  function Alone(s: HkSet, ms: seq<Memory>): seq<bytes> {
    if ms == [] then []
    else
      var n := |ms| - 1;
      Alone(s, ms[..n]) + if Fits(s.params) && Count(Run(s, n).0).1 then [Serialise(s.params, ms[n])] else []
  }

  lemma {:induction false} AloneCounts(s: HkSet, ms: seq<Memory>)
    requires Fits(s.params)
    ensures |Alone(s, ms)| == Run(s, |ms|).1
  {
    if ms != [] {
      AloneCounts(s, ms[..|ms| - 1]);
    }
  }

  lemma {:induction false} RunKeepsSet(s: HkSet, n: nat)
    ensures Run(s, n).0 == s.(countdown := Run(s, n).0.countdown)
  {
    if n > 0 {
      RunKeepsSet(s, n - 1);
    }
  }

  /** One report adds its values under its own identifier only, and only if it fits. */
  lemma ReportAdds(h: Hk, d: PusTm.Downlink, s: HkSet, m: Memory, id: u8)
    ensures Reported(id, Report(h, d, s, m).1.log)
         == Reported(id, d.log) + if s.setId == id && Fits(s.params) then [Serialise(s.params, m)] else []
    ensures Report(h, d, s, m).0.sets == h.sets
  {
    hide Serialise;
    HkLayout.SerialisedLength(s.params, m);
    var values := Serialise(s.params, m);
    var p := ReportPacket(h, s, values);
    assert p.data[1..] == values;
    var none: seq<bytes> := [];
    assert Reported(id, d.log) + none == Reported(id, d.log);
    assert (d.log + [p])[..|d.log|] == d.log;
  }

  lemma {:induction false} TickEach(h: Hk, d: PusTm.Downlink, m: Memory, n: nat, i: nat)
    requires n <= |h.sets| && i < |h.sets|
    ensures TickUpTo(h, d, m, n).0.sets[i] == if i < n then Count(h.sets[i]).0 else h.sets[i]
  {
    if n > 0 {
      hide Count;
      TickEach(h, d, m, n - 1, i);
    }
  }

  /** Of all sets of the table only the one with the identifier adds to its reports. */
  lemma {:induction false} TickAdds(h: Hk, d: PusTm.Downlink, m: Memory, n: nat, i: nat)
    requires n <= |h.sets| && i < |h.sets| && DistinctIds(h.sets)
    ensures var s := h.sets[i];
      Reported(s.setId, TickUpTo(h, d, m, n).1.log)
      == Reported(s.setId, d.log)
         + if i < n && Fits(s.params) && Count(s).1 then [Serialise(s.params, m)] else []
  {
    hide Serialise, Report, Reported, Fits, Count;
    var s := h.sets[i];
    var none: seq<bytes> := [];
    assert Reported(s.setId, d.log) + none == Reported(s.setId, d.log);
    if n > 0 {
      TickAdds(h, d, m, n - 1, i);
      var (h1, d1) := TickUpTo(h, d, m, n - 1);
      ReportAdds(h1, d1, h.sets[n - 1], m, s.setId);
    }
  }

  /**
    Over any ticks, set i of a table ends where it would alone, and the TM(3,25) built under its identifier
    are those it alone would send: at the ticks its own countdown makes due, with the values of that tick,
    whatever the other sets do. A set whose values do not fit a packet sends none.
    */
  lemma {:induction false} TableRuns(h: Hk, d: PusTm.Downlink, ms: seq<Memory>, i: nat)
    requires i < |h.sets| && DistinctIds(h.sets)
    ensures var (h1, d1) := Ticks(h, d, ms);
      && |h1.sets| == |h.sets| && DistinctIds(h1.sets)
      && h1.sets[i] == Run(h.sets[i], |ms|).0
      && Reported(h.sets[i].setId, d1.log) == Reported(h.sets[i].setId, d.log) + Alone(h.sets[i], ms)
  {
    hide Serialise, Reported, Fits, Count, TickUpTo;
    var s := h.sets[i];
    if ms == [] {
      var none: seq<bytes> := [];
      assert Reported(s.setId, d.log) + none == Reported(s.setId, d.log);
    } else {
      var n := |ms| - 1;
      TableRuns(h, d, ms[..n], i);
      var (h1, d1) := Ticks(h, d, ms[..n]);
      RunKeepsSet(s, n);
      TickEach(h1, d1, ms[n], |h1.sets|, i);
      TickAdds(h1, d1, ms[n], |h1.sets|, i);
      TickIds(h1, d1, ms[n]);
    }
  }

  lemma TickIds(h: Hk, d: PusTm.Downlink, m: Memory)
    requires DistinctIds(h.sets)
    ensures DistinctIds(Tick(h, d, m).0.sets)
  {
    hide TickUpTo, Count;
    var t := Tick(h, d, m).0.sets;
    forall i | 0 <= i < |t| ensures t[i].setId == h.sets[i].setId {
      TickEach(h, d, m, |h.sets|, i);
      CountKeepsId(h.sets[i]);
    }
  }

  lemma CountKeepsId(s: HkSet)
    ensures Count(s).0.setId == s.setId
  {
  }

  /** So an enabled set that fits a packet reports once in every interval, in any table. */
  lemma TablePeriod(h: Hk, d: PusTm.Downlink, ms: seq<Memory>, i: nat)
    requires i < |h.sets| && DistinctIds(h.sets)
    requires var s := h.sets[i]; Fits(s.params) && s.enabled && s.interval > 0 && s.countdown == s.interval
    ensures var s := h.sets[i];
      |Reported(s.setId, Ticks(h, d, ms).1.log)| == |Reported(s.setId, d.log)| + |ms| / s.interval
  {
    hide Fits, Reported, Ticks;
    TableRuns(h, d, ms, i);
    AloneCounts(h.sets[i], ms);
    PeriodIsInterval(h.sets[i], |ms|);
  }
}
