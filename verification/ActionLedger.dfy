/**
  Bookkeeping of service 19 over any run: every event that matched a definition while the service was
  enabled is dispatched, skipped, discarded, dropped or still on its way, and dispatch follows the order
  of the events.
  */
module ActionLedger {
  import opened Bytes
  import opened EventAction
  import Verification

  /** What can happen to the service: its telecommands, an event report, the start of a batch
      (`obsw_s19_run` copies the queue and empties it), and the next event of the batch. */
  datatype Op =
    | AddTc(tc: Tc) | DeleteTc(tc: Tc) | DeleteAllTc(tc: Tc) | EnableTc(tc: Tc) | DisableTc(tc: Tc)
    | Event(event: u16) | Take | Serve

  /** The service and what became of the matched events, by their serial numbers. */
  datatype Ledger = Ledger(
    a: Actions, batch: seq<u16>, events: seq<u16>,
    dispatched: seq<nat>, skipped: seq<nat>, discarded: seq<nat>, dropped: seq<nat>,
    serving: seq<nat>, waiting: seq<nat>)

  function Boot(): Ledger {
    Ledger(Actions(map[], true, [], 0), [], [], [], [], [], [], [], [])
  }

  function Apply(cap: nat, a: Actions, v: Verify, op: Op): Actions {
    match op
    case AddTc(tc) => Add(cap, a, v, tc).0
    case DeleteTc(tc) => Delete(a, v, tc).0
    case DeleteAllTc(tc) => DeleteAll(a, v, tc).0
    case EnableTc(tc) => Enable(a, v, tc).0
    case DisableTc(tc) => Disable(a, v, tc).0
    case Event(e) => OnEvent(a, e)
    case Take => a.(queue := [])
    case Serve => a
  }

  function Step(cap: nat, l: Ledger, v: Verify, op: Op): Ledger {
    var t := l.(a := Apply(cap, l.a, v, op));
    match op
    case Event(e) =>
      if !l.a.enabled || e !in l.a.defs then t
      else if |l.a.queue| >= QUEUE_LEN then t.(events := l.events + [e], dropped := l.dropped + [|l.events|])
      else t.(events := l.events + [e], waiting := l.waiting + [|l.events|])
    case DisableTc(_) => t.(discarded := l.discarded + l.waiting, waiting := [])
    case Take => t.(batch := l.batch + l.a.queue, serving := l.serving + l.waiting, waiting := [])
    case Serve => if l.batch == [] || l.serving == [] then l else ServeOne(l)
    case _ => t
  }

  /** The first event of the batch is dispatched if it still has a definition, otherwise skipped. */
  function ServeOne(l: Ledger): Ledger
    requires l.batch != [] && l.serving != []
  {
    var next := l.(batch := l.batch[1..], serving := l.serving[1..]);
    if l.batch[0] in l.a.defs then next.(dispatched := l.dispatched + [l.serving[0]])
    else next.(skipped := l.skipped + [l.serving[0]])
  }

  // ----- The invariant ------------------------------------------------------------------------------------

  /** The serial numbers of n events. */
  function Serials(n: nat): (r: seq<nat>)
    ensures |r| == n
  {
    seq<nat>(n, i => i)
  }

  /** Every serial number with its place, whichever it is. */
  function Places(l: Ledger): multiset<nat> {
    multiset(l.dispatched) + multiset(l.skipped) + multiset(l.discarded)
    + multiset(l.dropped) + multiset(l.serving) + multiset(l.waiting)
  }

  ghost predicate Increasing(s: seq<nat>) {
    forall i, j | 0 <= i < j < |s| :: s[i] < s[j]
  }

  /** A list of serials stands for a list of events. */
  ghost predicate StandsFor(serials: seq<nat>, events: seq<u16>, list: seq<u16>) {
    |serials| == |list| && forall i | 0 <= i < |list| :: serials[i] < |events| && events[serials[i]] == list[i]
  }

  ghost predicate InLine(l: Ledger) {
    && Increasing(l.dispatched + l.serving + l.waiting)
    && StandsFor(l.serving, l.events, l.batch) && StandsFor(l.waiting, l.events, l.a.queue)
  }

  ghost predicate Inv(l: Ledger) {
    && Places(l) == multiset(Serials(|l.events|))
    && InLine(l)
    && l.a.dropped == |l.dropped| % U16
    && |l.a.queue| <= QUEUE_LEN
  }

  lemma SerialsNext(n: nat)
    ensures multiset(Serials(n + 1)) == multiset(Serials(n)) + multiset{n}
  {
    assert Serials(n + 1) == Serials(n) + [n];
  }

  lemma LineBelow(l: Ledger)
    requires Places(l) == multiset(Serials(|l.events|))
    ensures forall x | x in l.dispatched + l.serving + l.waiting :: x < |l.events|
  {
    forall x | x in l.dispatched + l.serving + l.waiting ensures x < |l.events| {
      assert x in Places(l);
      assert x in Serials(|l.events|);
    }
  }

  lemma EventKeeps(cap: nat, l: Ledger, v: Verify, e: u16)
    requires Inv(l)
    ensures Inv(Step(cap, l, v, Event(e)))
  {
    hide Serials, Places, InLine;
    if l.a.enabled && e in l.a.defs {
      SerialsNext(|l.events|);
      EventPlaces(cap, l, v, e);
      EventLine(cap, l, v, e);
      Wrap(|l.dropped|);
    }
  }

  lemma EventPlaces(cap: nat, l: Ledger, v: Verify, e: u16)
    requires l.a.enabled && e in l.a.defs
    ensures Places(Step(cap, l, v, Event(e))) == Places(l) + multiset{|l.events|}
  {
    hide Apply, Places;
    var n := |l.events|;
    if |l.a.queue| >= QUEUE_LEN {
      OneDropped(l, Step(cap, l, v, Event(e)), n);
    } else {
      OneWaiting(l, Step(cap, l, v, Event(e)), n);
    }
  }

  lemma OneDropped(l: Ledger, t: Ledger, n: nat)
    requires t == l.(a := t.a, events := t.events, dropped := l.dropped + [n])
    ensures Places(t) == Places(l) + multiset{n}
  {
    MoreOf(l.dropped, n);
  }

  lemma OneWaiting(l: Ledger, t: Ledger, n: nat)
    requires t == l.(a := t.a, events := t.events, waiting := l.waiting + [n])
    ensures Places(t) == Places(l) + multiset{n}
  {
    MoreOf(l.waiting, n);
  }

  lemma MoreOf(s: seq<nat>, n: nat)
    ensures multiset(s + [n]) == multiset(s) + multiset{n}
  {
  }

  lemma EventLine(cap: nat, l: Ledger, v: Verify, e: u16)
    requires Inv(l) && l.a.enabled && e in l.a.defs
    ensures InLine(Step(cap, l, v, Event(e)))
  {
    LineBelow(l);
    hide Serials, Places;
    var t := Step(cap, l, v, Event(e));
    var line := l.dispatched + l.serving + l.waiting;
    if |l.a.queue| < QUEUE_LEN {
      assert t.dispatched + t.serving + t.waiting == line + [|l.events|];
      OneMore(line, |l.events|);
    }
  }

  lemma OneMore(s: seq<nat>, n: nat)
    requires Increasing(s) && forall x | x in s :: x < n
    ensures Increasing(s + [n])
  {
    var t := s + [n];
    forall i, j | 0 <= i < j < |t| ensures t[i] < t[j] {
      assert t[i] == s[i] && s[i] in s;
      assert j < |s| ==> t[j] == s[j];
    }
  }

  lemma Wrap(n: nat)
    ensures (n % U16 + 1) % U16 == (n + 1) % U16
  {
  }

  lemma DisableKeeps(cap: nat, l: Ledger, v: Verify, tc: Tc)
    requires Inv(l)
    ensures Inv(Step(cap, l, v, DisableTc(tc)))
  {
    hide Serials, Places, InLine, Verification.Reporter.Report, Verification.TcRef;
    DisablePlaces(cap, l, v, tc);
    DisableLine(cap, l, v, tc);
  }

  lemma DisablePlaces(cap: nat, l: Ledger, v: Verify, tc: Tc)
    ensures Places(Step(cap, l, v, DisableTc(tc))) == Places(l)
  {
    hide Verification.Reporter.Report, Verification.TcRef;
    assert multiset(l.discarded + l.waiting) == multiset(l.discarded) + multiset(l.waiting);
  }

  lemma DisableLine(cap: nat, l: Ledger, v: Verify, tc: Tc)
    requires InLine(l)
    ensures InLine(Step(cap, l, v, DisableTc(tc)))
  {
    hide Verification.Reporter.Report, Verification.TcRef;
    var line := l.dispatched + l.serving + l.waiting;
    var t := Step(cap, l, v, DisableTc(tc));
    assert t.dispatched + t.serving + t.waiting == line[..|l.dispatched| + |l.serving|];
  }

  lemma TakeKeeps(cap: nat, l: Ledger, v: Verify)
    requires Inv(l)
    ensures Inv(Step(cap, l, v, Take))
  {
    hide Serials, Places, InLine;
    TakePlaces(cap, l, v);
    TakeLine(cap, l, v);
  }

  lemma TakePlaces(cap: nat, l: Ledger, v: Verify)
    ensures Places(Step(cap, l, v, Take)) == Places(l)
  {
    assert multiset(l.serving + l.waiting) == multiset(l.serving) + multiset(l.waiting);
  }

  lemma TakeLine(cap: nat, l: Ledger, v: Verify)
    requires InLine(l)
    ensures InLine(Step(cap, l, v, Take))
  {
    var t := Step(cap, l, v, Take);
    assert t.dispatched + t.serving + t.waiting == l.dispatched + l.serving + l.waiting;
  }

  lemma ServeKeeps(l: Ledger)
    requires Inv(l) && l.batch != [] && l.serving != []
    ensures Inv(ServeOne(l))
  {
    hide Serials, Places, InLine;
    ServePlaces(l);
    ServeLine(l);
  }

  lemma ServePlaces(l: Ledger)
    requires l.batch != [] && l.serving != []
    ensures Places(ServeOne(l)) == Places(l)
  {
    assert l.serving == [l.serving[0]] + l.serving[1..];
  }

  lemma ServeLine(l: Ledger)
    requires InLine(l) && l.batch != [] && l.serving != []
    ensures InLine(ServeOne(l))
  {
    hide Increasing;
    var t := ServeOne(l);
    var line := l.dispatched + l.serving + l.waiting;
    var d := |l.dispatched|;
    if l.batch[0] in l.a.defs {
      assert t.dispatched + t.serving + t.waiting == line;
    } else {
      SkipOne(line, d);
      assert t.dispatched + t.serving + t.waiting == line[..d] + line[d + 1..];
    }
  }

  lemma SkipOne(s: seq<nat>, d: nat)
    requires Increasing(s) && d < |s|
    ensures Increasing(s[..d] + s[d + 1..])
  {
  }

  lemma StepKeeps(cap: nat, l: Ledger, v: Verify, op: Op)
    requires Inv(l)
    ensures Inv(Step(cap, l, v, op))
  {
    hide Inv, ServeOne, Apply;
    match op {
      case Event(e) => EventKeeps(cap, l, v, e);
      case DisableTc(tc) => DisableKeeps(cap, l, v, tc);
      case Take => TakeKeeps(cap, l, v);
      case Serve =>
        if l.batch != [] && l.serving != [] {
          ServeKeeps(l);
        }
      case _ => DefinitionKeeps(l, Apply(cap, l.a, v, op), cap, v, op);
    }
  }

  /** The other telecommands change definitions and the switch only. */
  lemma DefinitionKeeps(l: Ledger, a: Actions, cap: nat, v: Verify, op: Op)
    requires Inv(l) && a == Apply(cap, l.a, v, op)
    requires op.AddTc? || op.DeleteTc? || op.DeleteAllTc? || op.EnableTc?
    ensures Inv(l.(a := a))
  {
    hide Serials, Increasing, StandsFor;
    SameQueue(cap, l.a, v, op);
  }

  lemma SameQueue(cap: nat, a: Actions, v: Verify, op: Op)
    requires op.AddTc? || op.DeleteTc? || op.DeleteAllTc? || op.EnableTc?
    ensures var b := Apply(cap, a, v, op); b.queue == a.queue && b.dropped == a.dropped
  {
    hide Verification.Reporter.Report, Verification.TcRef, ActionValid;
  }

  // ----- Sequences of operations ----------------------------------------------------------------------------

  function Steps(cap: nat, l: Ledger, v: Verify, ops: seq<Op>): Ledger {
    if ops == [] then l else Step(cap, Steps(cap, l, v, ops[..|ops| - 1]), v, ops[|ops| - 1])
  }

  lemma {:induction false} StepsKeep(cap: nat, l: Ledger, v: Verify, ops: seq<Op>)
    requires Inv(l)
    ensures Inv(Steps(cap, l, v, ops))
  {
    hide Step, Inv;
    if ops != [] {
      StepsKeep(cap, l, v, ops[..|ops| - 1]);
      StepKeeps(cap, Steps(cap, l, v, ops[..|ops| - 1]), v, ops[|ops| - 1]);
    }
  }

  /** Matched events are those dispatched, skipped for lack of a definition, discarded by disabling, dropped,
      in the batch or in the queue, each exactly once. */
  lemma Counted(l: Ledger)
    requires Inv(l)
    ensures |l.events| == |l.dispatched| + |l.skipped| + |l.discarded| + |l.dropped| + |l.batch| + |l.a.queue|
  {
    assert |multiset(Serials(|l.events|))| == |l.events|;
    assert |Places(l)| == |l.dispatched| + |l.skipped| + |l.discarded| + |l.dropped| + |l.serving| + |l.waiting|;
  }

  /**
    Over every sequence of operations from boot the matched events have exactly one place each; the 16-bit
    counter tells the dropped ones modulo 65536; and events are dispatched in the order in which they
    occurred, before any that still waits.
    */
  lemma Conservation(cap: nat, v: Verify, ops: seq<Op>)
    ensures var l := Steps(cap, Boot(), v, ops);
      && |l.events| == |l.dispatched| + |l.skipped| + |l.discarded| + |l.dropped| + |l.batch| + |l.a.queue|
      && Places(l) == multiset(Serials(|l.events|))
      && l.a.dropped == |l.dropped| % U16
      && Increasing(l.dispatched + l.serving + l.waiting)
      && StandsFor(l.serving, l.events, l.batch) && StandsFor(l.waiting, l.events, l.a.queue)
  {
    hide Step;
    BootInv();
    StepsKeep(cap, Boot(), v, ops);
    Counted(Steps(cap, Boot(), v, ops));
  }

  lemma BootInv()
    ensures Inv(Boot())
  {
  }
}
