/**
  The Mode Manager task of `src/task/mode.c` as single accesses to the mode and the three request
  flags, interleaved with the request functions and with other tasks' entries into SAFE.
  */
module ModeSteps {
  import opened Bytes
  import Fsm

  type Mode = Fsm.Mode
  const Nominal := Fsm.Nominal
  const Safe := Fsm.Safe
  const Standby := Fsm.Standby

  /** STANDBY_SAFE_TIMEOUT_S. */
  const TIMEOUT := 300

  /** The next access of the mode task. Entering and Writing are the check and the write of a
      transition function; `timedOut` tells the transition of the timeout from a requested one. */
  datatype Pc =
    | Asleep
    | AtSafe | TakeSafe
    | AtStandby | TakeStandby
    | AtNominal | TakeNominal
    | Entering(m: Mode, timedOut: bool) | Writing(m: Mode, timedOut: bool)
    | AtTimeout
    | AtEvents

  /** Per tick: was a SAFE request pending when the mode task woke; the mode at its end; the counter then. */
  datatype History = History(pending: seq<bool>, ends: seq<Mode>, counts: seq<u32>, events: seq<Mode>,
                             asked: nat, entered: nat)

  datatype State = State(
    mode: Mode, reqSafe: bool, reqStandby: bool, reqNominal: bool,
    pc: Pc, cur: Mode, ticks: u32, last: Mode, past: History)

  /** One access. Requests for SAFE and STANDBY are two writes each: the flag, then `DropNominal`. */
  datatype Access = Task | AskSafe | AskStandby | AskNominal | DropNominal | Fault

  function Start(first: Mode): State {
    State.State(first, false, false, false, Asleep, first, 0, first, History([], [], [], [], 0, 0))
  }

  function After(timedOut: bool): Pc {
    if timedOut then AtEvents else AtTimeout
  }

  function Wake(s: State): State {
    s.(cur := s.mode, pc := AtSafe, past := s.past.(pending := s.past.pending + [s.reqSafe]))
  }

  /** The standby counter and the mode it sees. */
  function Timeout(s: State): State {
    if s.mode == Standby then
      var n := (s.ticks + 1) % U32;
      s.(cur := s.mode, ticks := n, pc := if n >= TIMEOUT then Entering(Safe, true) else AtEvents)
    else s.(cur := s.mode, ticks := 0, pc := AtEvents)
  }

  /** The end of a tick: an event if the mode is not the last one reported. */
  function Finish(s: State): State {
    var h := s.past;
    s.(cur := s.mode, last := s.mode, pc := Asleep,
       past := h.(ends := h.ends + [s.mode], counts := h.counts + [s.ticks],
                  events := if s.mode != s.last then h.events + [s.mode] else h.events))
  }

  function WriteMode(s: State, m: Mode, timedOut: bool): State {
    s.(mode := m, pc := After(timedOut),
       past := if m == Nominal then s.past.(entered := s.past.entered + 1) else s.past)
  }

  function TaskStep(s: State): State {
    match s.pc
    case Asleep => Wake(s)
    case AtSafe => s.(pc := if s.reqSafe then TakeSafe else AtStandby)
    case TakeSafe => s.(reqSafe := false, pc := Entering(Safe, false))
    case AtStandby => s.(pc := if s.reqStandby then TakeStandby else AtNominal)
    case TakeStandby => s.(reqStandby := false, pc := Entering(Standby, false))
    case AtNominal => s.(pc := if s.reqNominal then TakeNominal else AtTimeout)
    case TakeNominal => s.(reqNominal := false, pc := if s.cur == Safe then Entering(Nominal, false) else AtTimeout)
    case Entering(m, t) => s.(pc := if s.mode == m then After(t) else Writing(m, t))
    case Writing(m, t) => WriteMode(s, m, t)
    case AtTimeout => Timeout(s)
    case AtEvents => Finish(s)
  }

  function Next(s: State, a: Access): State {
    match a
    case Task => TaskStep(s)
    case AskSafe => s.(reqSafe := true)
    case AskStandby => s.(reqStandby := true)
    case AskNominal => s.(reqNominal := true, past := s.past.(asked := s.past.asked + 1))
    case DropNominal => s.(reqNominal := false)
    case Fault => s.(mode := Safe)
  }

  function Run(s: State, accesses: seq<Access>): State {
    if accesses == [] then s else Next(Run(s, accesses[..|accesses| - 1]), accesses[|accesses| - 1])
  }

  // ----- NOMINAL --------------------------------------------------------------------------------------

  /** Between waking and the end of the request handling. */
  predicate Deciding(pc: Pc) {
    pc.AtSafe? || pc.TakeSafe? || pc.AtStandby? || pc.TakeStandby? || pc.AtNominal? || pc.TakeNominal?
  }

  predicate EnteringNominal(pc: Pc) {
    (pc.Entering? || pc.Writing?) && pc.m == Nominal
  }

  /** SAFE at the wake-up is still SAFE while requests are served, and while it enters NOMINAL. */
  predicate SafeHolds(s: State) {
    && (Deciding(s.pc) && s.cur == Safe ==> s.mode == Safe)
    && (EnteringNominal(s.pc) ==> s.cur == Safe && s.mode == Safe && !s.pc.timedOut)
  }

  /** Requests for NOMINAL not yet used up: one pending, one being served. */
  function Open(s: State): nat {
    (if s.reqNominal && !s.pc.TakeNominal? then 1 else 0)
    + (if s.pc.TakeNominal? || EnteringNominal(s.pc) then 1 else 0)
  }

  predicate NominalInv(s: State) {
    SafeHolds(s) && s.past.entered + Open(s) <= s.past.asked
  }

  lemma NominalKept(s: State, a: Access)
    requires NominalInv(s)
    ensures NominalInv(Next(s, a))
  {
    if a == Task {
      hide TaskStep;
      TaskHolds(s);
      TaskOpen(s);
    } else {
      hide TaskStep;
    }
  }

  lemma TaskHolds(s: State)
    requires SafeHolds(s)
    ensures SafeHolds(TaskStep(s))
  {
    hide Timeout, Finish;
    if s.pc.AtTimeout? {
      TimeoutHolds(s);
    } else if s.pc.AtEvents? {
      FinishHolds(s);
    }
  }

  lemma TimeoutHolds(s: State)
    ensures SafeHolds(Timeout(s))
  {
  }

  lemma FinishHolds(s: State)
    ensures SafeHolds(Finish(s))
  {
  }

  lemma TaskOpen(s: State)
    ensures TaskStep(s).past.asked == s.past.asked
    ensures TaskStep(s).past.entered + Open(TaskStep(s)) <= s.past.entered + Open(s)
  {
  }

  /** Only the mode task enters NOMINAL, from SAFE, in a tick that found SAFE, and using up one request. */
  lemma NominalFromSafe(s: State, a: Access)
    requires NominalInv(s) && s.mode != Nominal && Next(s, a).mode == Nominal
    ensures a == Task && s.mode == Safe && s.cur == Safe
    ensures Next(s, a).past.entered == s.past.entered + 1 <= s.past.asked
  {
  }

  // ----- SAFE requests ----------------------------------------------------------------------------------

  /** Where a tick can be, and what it has done, when it woke to a pending SAFE request. */
  predicate ServingSafe(s: State) {
    match s.pc
    case AtSafe => s.reqSafe
    case TakeSafe => true
    case Entering(m, timedOut) => m == Safe && (timedOut ==> s.mode == Safe)
    case Writing(m, timedOut) => m == Safe && (timedOut ==> s.mode == Safe)
    case AtTimeout => s.mode == Safe
    case AtEvents => s.mode == Safe
    case _ => false
  }

  ghost predicate Served(pending: seq<bool>, ends: seq<Mode>) {
    forall i | 0 <= i < |ends| && i < |pending| :: pending[i] ==> ends[i] == Safe
  }

  ghost predicate SafeInv(s: State) {
    var h := s.past;
    && |h.pending| == |h.ends| + (if s.pc.Asleep? then 0 else 1)
    && Served(h.pending, h.ends)
    && (!s.pc.Asleep? && h.pending[|h.ends|] ==> ServingSafe(s))
  }

  lemma SafeKept(s: State, a: Access)
    requires SafeInv(s)
    ensures SafeInv(Next(s, a))
  {
    if a == Task {
      if s.pc.Asleep? {
        assert Served(Next(s, a).past.pending, s.past.ends);
      } else if s.pc.AtEvents? {
        assert Served(s.past.pending, s.past.ends + [s.mode]);
      } else {
        SafeServed(s);
      }
    }
  }

  /** Within a tick. */
  lemma SafeServed(s: State)
    requires SafeInv(s) && !s.pc.Asleep? && !s.pc.AtEvents?
    ensures SafeInv(TaskStep(s))
  {
    hide Served;
  }

  // ----- The timeout --------------------------------------------------------------------------------------

  /** The counter before tick i. */
  function Before(counts: seq<u32>, i: nat): u32
    requires i <= |counts|
  {
    if i == 0 then 0 else counts[i - 1]
  }

  /** A tick that ends in STANDBY counts one more, and stays below the timeout. */
  ghost predicate Counted(counts: seq<u32>, ends: seq<Mode>) {
    && |counts| == |ends|
    && forall i | 0 <= i < |ends| ::
         counts[i] <= i + 1 && (ends[i] == Standby ==> counts[i] == (Before(counts, i) + 1) % U32 < TIMEOUT)
  }

  /** After the timeout check of the running tick. */
  predicate Checked(pc: Pc) {
    pc.AtEvents? || ((pc.Entering? || pc.Writing?) && pc.timedOut)
  }

  ghost predicate CountInv(s: State) {
    var h := s.past;
    var before := Before(h.counts, |h.counts|);
    && Counted(h.counts, h.ends)
    && before <= |h.counts|
    && (if Checked(s.pc) then s.ticks <= |h.counts| + 1 else s.ticks == before)
    && (s.pc.AtEvents? && s.mode == Standby ==> s.ticks == (before + 1) % U32 < TIMEOUT)
    && ((s.pc.Entering? || s.pc.Writing?) && s.pc.timedOut ==> s.pc.m == Safe)
  }

  lemma CountKept(s: State, a: Access)
    requires CountInv(s)
    ensures CountInv(Next(s, a))
  {
    hide Counted, Before;
    SameHistory(s, a);
    if a != Task {
      hide TaskStep;
    } else if s.pc.AtEvents? {
      CountFinish(s);
    } else {
      CountTask(s);
    }
  }

  lemma CountTask(s: State)
    requires CountInv(s) && !s.pc.AtEvents?
    ensures CountInv(TaskStep(s))
  {
    hide Counted, Before;
    SameHistory(s, Task);
    if s.pc.AtTimeout? {
      CountTimeout(s);
    } else {
      hide Timeout;
    }
  }

  lemma CountTimeout(s: State)
    requires CountInv(s) && s.pc.AtTimeout?
    ensures CountInv(Timeout(s))
  {
    hide Counted, Before;
  }

  /** Only the end of a tick adds to the history of ticks. */
  lemma SameHistory(s: State, a: Access)
    ensures var t := Next(s, a); a != Task || !s.pc.AtEvents? ==>
      t.past.ends == s.past.ends && t.past.counts == s.past.counts && t.past.events == s.past.events && t.last == s.last
  {
  }

  lemma CountFinish(s: State)
    requires CountInv(s) && s.pc.AtEvents?
    ensures CountInv(Finish(s))
  {
    var h, n := Finish(s).past, |s.past.ends|;
    assert h.counts[n] == s.ticks && Before(h.counts, n + 1) == s.ticks;
    forall i | 0 <= i <= n
      ensures Before(h.counts, i) == Before(s.past.counts, i)
    {
    }
  }

  lemma CountAt(counts: seq<u32>, ends: seq<Mode>, i: nat)
    requires Counted(counts, ends) && i < |ends|
    ensures |counts| == |ends| && counts[i] <= i + 1
    ensures ends[i] == Standby ==> counts[i] == (Before(counts, i) + 1) % U32 < TIMEOUT
  {
  }

  ghost predicate AllStandby(ends: seq<Mode>, i: nat, n: nat) {
    i + n <= |ends| && forall k | i <= k < i + n :: ends[k] == Standby
  }

  /** The counter goes up by one per tick over a stay in STANDBY. */
  lemma {:induction false} CountsUp(counts: seq<u32>, ends: seq<Mode>, i: nat, n: nat)
    requires Counted(counts, ends) && n > 0 && AllStandby(ends, i, n)
    ensures counts[i] + n - 1 == counts[i + n - 1] < TIMEOUT
  {
    if n > 1 {
      CountsUp(counts, ends, i, n - 1);
      assert ends[i + n - 1] == Standby;
    } else {
      assert ends[i] == Standby;
    }
  }

  /** A stay in STANDBY is at most 299 ticks; only one that begins where the 32-bit counter wraps, which
      takes 2^32 - 1 ticks before it, may be of 300. */
  lemma StandbyStay(counts: seq<u32>, ends: seq<Mode>, i: nat, n: nat)
    requires Counted(counts, ends) && n > 0 && AllStandby(ends, i, n)
    ensures n <= TIMEOUT
    ensures n == TIMEOUT ==> i >= U32 - 1 && counts[i - 1] == U32 - 1
  {
    CountsUp(counts, ends, i, n);
    CountAt(counts, ends, i);
    if n == TIMEOUT {
      StayFromWrap(counts, ends, i);
    }
  }

  lemma StayFromWrap(counts: seq<u32>, ends: seq<Mode>, i: nat)
    requires Counted(counts, ends) && i < |ends| && ends[i] == Standby && counts[i] == 0
    ensures i >= U32 - 1 && counts[i - 1] == U32 - 1
  {
    CountAt(counts, ends, i);
    hide Counted;
    Wraps(Before(counts, i));
    if i > 0 {
      CountAt(counts, ends, i - 1);
    }
  }

  lemma Wraps(n: u32)
    ensures (n + 1) % U32 == 0 ==> n == U32 - 1
  {
  }

  // ----- Mode events -------------------------------------------------------------------------------------

  /** A sequence of modes without repetitions of the one before, the first compared with `last`. */
  function Changes(last: Mode, ends: seq<Mode>): seq<Mode> {
    if ends == [] then []
    else
      var n := |ends| - 1;
      Changes(last, ends[..n]) + (if ends[n] != LastOf(last, ends[..n]) then [ends[n]] else [])
  }

  function LastOf(last: Mode, ends: seq<Mode>): Mode {
    if ends == [] then last else ends[|ends| - 1]
  }

  ghost predicate EventInv(s: State, first: Mode) {
    s.past.events == Changes(first, s.past.ends) && s.last == LastOf(first, s.past.ends)
  }

  lemma EventKept(s: State, a: Access, first: Mode)
    requires EventInv(s, first)
    ensures EventInv(Next(s, a), first)
  {
    if a == Task && s.pc.AtEvents? {
      assert (s.past.ends + [s.mode])[..|s.past.ends|] == s.past.ends;
    } else {
      hide Next;
      SameHistory(s, a);
    }
  }

  /** Consecutive mode events differ, and the last one names the mode of the last tick. */
  lemma {:induction false} ChangesDiffer(last: Mode, ends: seq<Mode>)
    ensures var e := Changes(last, ends);
      && (forall i | 0 < i < |e| :: e[i] != e[i - 1])
      && LastOf(last, e) == LastOf(last, ends) && (e != [] ==> e[0] != last)
  {
    if ends != [] {
      ChangesDiffer(last, ends[..|ends| - 1]);
    }
  }

  // ----- Runs ----------------------------------------------------------------------------------------------

  ghost predicate Inv(s: State, first: Mode) {
    NominalInv(s) && SafeInv(s) && CountInv(s) && EventInv(s, first)
  }

  lemma {:induction false} RunKeeps(first: Mode, accesses: seq<Access>)
    ensures Inv(Run(Start(first), accesses), first)
  {
    hide NominalInv, SafeInv, CountInv, EventInv, Next;
    if accesses == [] {
      StartInv(first);
    } else {
      var n := |accesses| - 1;
      RunKeeps(first, accesses[..n]);
      var s := Run(Start(first), accesses[..n]);
      NominalKept(s, accesses[n]);
      SafeKept(s, accesses[n]);
      CountKept(s, accesses[n]);
      EventKept(s, accesses[n], first);
    }
  }

  lemma StartInv(first: Mode)
    ensures Inv(Start(first), first)
  {
  }

  /**
    In every interleaving of the Mode Manager with requests and faults: entries into NOMINAL never
    outnumber the requests for it; a tick that wakes to a pending SAFE request ends in SAFE; no stay in
    STANDBY that begins within the first 2^32 - 1 ticks lasts 300 of them; and the mode events are the
    end-of-tick modes without repetitions.
    */
  lemma ModeRun(first: Mode, accesses: seq<Access>)
    ensures var h := Run(Start(first), accesses).past;
      && h.entered <= h.asked
      && Served(h.pending, h.ends)
      && (forall i: nat, n: nat | 0 < n && AllStandby(h.ends, i, n) :: n < TIMEOUT || (n == TIMEOUT && i >= U32 - 1))
      && h.events == Changes(first, h.ends)
  {
    hide Run;
    RunKeeps(first, accesses);
    var h := Run(Start(first), accesses).past;
    forall i: nat, n: nat | 0 < n && AllStandby(h.ends, i, n) ensures n < TIMEOUT || (n == TIMEOUT && i >= U32 - 1) {
      StandbyStay(h.counts, h.ends, i, n);
    }
  }

  /** NOMINAL is entered in no run but from SAFE. */
  lemma RunNominalFromSafe(first: Mode, accesses: seq<Access>, a: Access)
    requires Run(Start(first), accesses).mode != Nominal && Next(Run(Start(first), accesses), a).mode == Nominal
    ensures a == Task && Run(Start(first), accesses).mode == Safe
  {
    hide Run;
    RunKeeps(first, accesses);
    NominalFromSafe(Run(Start(first), accesses), a);
  }

  // ----- Whole ticks -----------------------------------------------------------------------------------------

  /** A tick without interference, by its outcome: the mode after the requests, after the timeout, and
      the standby counter. Requests count in the order SAFE, STANDBY, NOMINAL; one is taken per tick. */
  function Requested(s: State): Mode {
    if s.reqSafe then Safe
    else if s.reqStandby then Standby
    else if s.reqNominal && s.mode == Safe then Nominal
    else s.mode
  }

  function NewCount(s: State): u32 {
    if Requested(s) == Standby then (s.ticks + 1) % U32 else 0
  }

  function Settled(s: State): Mode {
    if Requested(s) == Standby && NewCount(s) >= TIMEOUT then Safe else Requested(s)
  }

  /** The task's next n accesses. */
  function TaskSteps(s: State, n: nat): State {
    if n == 0 then s else TaskStep(TaskSteps(s, n - 1))
  }

  /** The task alone gets from s to t. */
  ghost predicate Reaches(s: State, t: State) {
    exists n: nat :: TaskSteps(s, n) == t
  }

  lemma {:induction false} StepsAdd(s: State, m: nat, n: nat)
    ensures TaskSteps(s, m + n) == TaskSteps(TaskSteps(s, m), n)
  {
    hide TaskStep;
    if n > 0 {
      StepsAdd(s, m, n - 1);
    }
  }

  lemma ReachesStep(s: State)
    ensures Reaches(s, TaskStep(s))
  {
    assert TaskSteps(s, 0) == s;
    assert TaskSteps(s, 1) == TaskStep(s);
  }

  lemma ReachesTrans(s: State, t: State, u: State)
    requires Reaches(s, t) && Reaches(t, u)
    ensures Reaches(s, u)
  {
    var m: nat :| TaskSteps(s, m) == t;
    var n: nat :| TaskSteps(t, n) == u;
    StepsAdd(s, m, n);
  }

  lemma ReachesNext(s: State, t: State)
    requires Reaches(s, t)
    ensures Reaches(s, TaskStep(t))
  {
    ReachesStep(t);
    ReachesTrans(s, t, TaskStep(t));
  }

  /** The state when the requests have been dealt with. */
  function Decided(s: State): State {
    s.(mode := Requested(s), cur := s.mode, pc := AtTimeout,
       reqSafe := false, reqStandby := s.reqStandby && s.reqSafe,
       reqNominal := s.reqNominal && (s.reqSafe || s.reqStandby),
       past := s.past.(
         pending := s.past.pending + [s.reqSafe],
         entered := s.past.entered + if Requested(s) == Nominal && s.mode != Nominal then 1 else 0))
  }

  /** The state at the end of the tick. */
  function Ended(s: State): State {
    var h := Decided(s).past;
    Decided(s).(
      mode := Settled(s), cur := Settled(s), last := Settled(s), ticks := NewCount(s), pc := Asleep,
      past := h.(ends := h.ends + [Settled(s)], counts := h.counts + [NewCount(s)],
                 events := if Settled(s) != s.last then h.events + [Settled(s)] else h.events))
  }

  lemma Decides(s: State)
    requires s.pc == Asleep
    ensures Reaches(s, Decided(s))
  {
    hide Reaches;
    var w := Wake(s);
    ReachesStep(s);
    ReachesNext(s, w);
    if s.reqSafe {
      var t := w.(pc := TakeSafe);
      ReachesNext(s, t);
      Enters(s, t.(reqSafe := false), Safe, false);
    } else {
      var b := w.(pc := AtStandby);
      ReachesNext(s, b);
      if s.reqStandby {
        var t := b.(pc := TakeStandby);
        ReachesNext(s, t);
        Enters(s, t.(reqStandby := false), Standby, false);
      } else {
        var n := b.(pc := AtNominal);
        ReachesNext(s, n);
        if s.reqNominal {
          var t := n.(pc := TakeNominal);
          ReachesNext(s, t);
          if s.mode == Safe {
            Enters(s, t.(reqNominal := false), Nominal, false);
          }
        }
      }
    }
  }

  /** The check and the write of a transition. */
  lemma Enters(s: State, t: State, m: Mode, timedOut: bool)
    requires Reaches(s, t.(pc := Entering(m, timedOut)))
    ensures Reaches(s, if t.mode == m then t.(pc := After(timedOut)) else WriteMode(t, m, timedOut))
  {
    hide Reaches;
    ReachesNext(s, t.(pc := Entering(m, timedOut)));
    if t.mode != m {
      ReachesNext(s, t.(pc := Writing(m, timedOut)));
    }
  }

  /** A tick without interference: the accesses of the mode task add up to one transition of the whole state,
      with requests served in the order SAFE, STANDBY, NOMINAL and one of them per tick. */
  lemma WholeTick(s: State)
    requires s.pc == Asleep
    ensures Reaches(s, Ended(s))
  {
    hide Reaches;
    Decides(s);
    var d := Decided(s);
    ReachesNext(s, d);
    var t := Timeout(d);
    if Settled(s) != Requested(s) {
      Enters(s, t, Safe, true);
      t := WriteMode(t, Safe, true);
    }
    ReachesNext(s, t);
  }

  /** What an undisturbed tick makes of the requests it finds and of the mode: one request is served, SAFE before
      STANDBY before NOMINAL; NOMINAL is entered from SAFE only, and asked for in another mode it is forgotten; in
      STANDBY the counter moves on, to SAFE at 300; a mode other than the last one reported is reported. */
  lemma TickServes(s: State)
    requires s.pc == Asleep
    ensures var t, n := Ended(s), (s.ticks + 1) % 0x1_0000_0000;
      && !t.reqSafe && t.reqStandby == (s.reqStandby && s.reqSafe)
      && t.reqNominal == (s.reqNominal && (s.reqSafe || s.reqStandby))
      && (s.reqSafe ==> t.mode == Safe && t.ticks == 0)
      && (!s.reqSafe && (s.reqStandby || s.mode == Standby) ==>
            t.ticks == n && t.mode == if n >= 300 then Safe else Standby)
      && (!s.reqSafe && !s.reqStandby && s.mode == Safe ==>
            t.ticks == 0 && t.mode == if s.reqNominal then Nominal else Safe)
      && (!s.reqSafe && !s.reqStandby && s.mode == Nominal ==> t.ticks == 0 && t.mode == Nominal)
      && t.past.events == s.past.events + (if t.mode != s.last then [t.mode] else []) && t.last == t.mode
  {
  }

  // ----- How long a stay is --------------------------------------------------------------------------------

  /** Whole ticks without interference. */
  function Ticks(s: State, n: nat): State {
    if n == 0 then s else Ended(Ticks(s, n - 1))
  }

  /** The length of an undisturbed stay in STANDBY, by the counter before it. */
  function StayLength(ticks: u32): nat {
    if ticks == U32 - 1 then TIMEOUT else if ticks < TIMEOUT - 1 then TIMEOUT - 1 - ticks else 0
  }

  /** The next tick enters or continues STANDBY, and nothing else is pending. */
  predicate Staying(s: State) {
    Requested(s) == Standby && !s.reqSafe && !s.reqNominal
  }

  /** A tick of such a stay, by the counter it leaves. */
  lemma StayTick(s: State)
    requires Staying(s)
    ensures Ended(s).ticks == (s.ticks + 1) % U32
    ensures if Ended(s).ticks < TIMEOUT then Staying(Ended(s)) && Ended(s).mode == Standby else Ended(s).mode == Safe
  {
  }

  lemma {:induction false} StayState(s: State, n: nat)
    requires Staying(s) && n <= StayLength(s.ticks)
    ensures var t := Ticks(s, n);
      && Staying(t) && t.ticks == (s.ticks + n) % U32
      && (n > 0 ==> t.mode == Standby)
  {
    if n > 0 {
      hide Ended, Staying;
      StayState(s, n - 1);
      StayTick(Ticks(s, n - 1));
      CountOn(s.ticks, n - 1);
    }
  }

  /** Counting on from a counter within the length of the stay stays below the timeout. */
  lemma CountOn(ticks: u32, n: nat)
    requires n < StayLength(ticks)
    ensures ((ticks + n) % U32 + 1) % U32 == (ticks + n + 1) % U32 < TIMEOUT
  {
    Reduce(ticks + n);
    Reduce(ticks + n + 1);
    Reduce((if ticks + n < U32 then ticks + n else ticks + n - U32) + 1);
  }

  lemma Reduce(x: nat)
    requires x < 2 * U32
    ensures x % U32 == if x < U32 then x else x - U32
  {
  }

  lemma StayEnds(s: State)
    requires Staying(s)
    ensures Ticks(s, StayLength(s.ticks) + 1).mode == Safe
  {
    hide Ended, Staying;
    StayState(s, StayLength(s.ticks));
    StayTick(Ticks(s, StayLength(s.ticks)));
  }

  ghost predicate StaysFor(s: State, n: nat) {
    forall k: nat | 0 < k <= n :: Ticks(s, k).mode == Standby
  }

  /** An undisturbed stay lasts exactly as many ticks as the counter before it says. */
  lemma StayExact(s: State, n: nat)
    requires Staying(s)
    ensures StaysFor(s, n) <==> n <= StayLength(s.ticks)
  {
    var m := StayLength(s.ticks);
    if n <= m {
      forall k: nat | 0 < k <= n ensures Ticks(s, k).mode == Standby {
        StayState(s, k);
      }
    } else {
      StayEnds(s);
      assert Ticks(s, m + 1).mode != Standby;
    }
  }

  /** It reaches 300 ticks if and only if that counter is 2^32 - 1: it is not cleared by the tick that times
      out, and may be driven that far. */
  lemma LongStayExact(s: State)
    requires Staying(s)
    ensures StaysFor(s, TIMEOUT) <==> s.ticks == U32 - 1
  {
    StayExact(s, TIMEOUT);
  }

  // ----- The long stay is reached from the start -----------------------------------------------------------

  /** Some accesses lead from s to t. */
  ghost predicate Leads(s: State, t: State) {
    exists accesses :: Run(s, accesses) == t
  }

  lemma {:induction false} RunConcat(s: State, x: seq<Access>, y: seq<Access>)
    ensures Run(s, x + y) == Run(Run(s, x), y)
  {
    hide Next;
    if y == [] {
      assert x + y == x;
    } else {
      assert (x + y)[..|x + y| - 1] == x + y[..|y| - 1];
      RunConcat(s, x, y[..|y| - 1]);
    }
  }

  lemma LeadsTrans(s: State, t: State, u: State)
    requires Leads(s, t) && Leads(t, u)
    ensures Leads(s, u)
  {
    var x :| Run(s, x) == t;
    var y :| Run(t, y) == u;
    RunConcat(s, x, y);
  }

  lemma LeadsNext(s: State, a: Access)
    ensures Leads(s, Next(s, a))
  {
    hide Next;
    assert [a][..0] == [];
    assert Run(s, [a][..0]) == s;
    assert Run(s, [a]) == Next(s, a);
  }

  lemma LeadsSelf(s: State)
    ensures Leads(s, s)
  {
    assert Run(s, []) == s;
  }

  lemma {:induction false} TaskLeads(s: State, n: nat)
    ensures Leads(s, TaskSteps(s, n))
  {
    hide TaskStep, Leads;
    if n == 0 {
      LeadsSelf(s);
    } else {
      TaskLeads(s, n - 1);
      LeadsNext(TaskSteps(s, n - 1), Task);
      LeadsTrans(s, TaskSteps(s, n - 1), TaskSteps(s, n));
    }
  }

  /** A whole tick is a run of the mode task. */
  lemma TickLeads(s: State)
    requires s.pc == Asleep
    ensures Leads(s, Ended(s))
  {
    hide Leads, Ended;
    WholeTick(s);
    var n: nat :| TaskSteps(s, n) == Ended(s);
    TaskLeads(s, n);
  }

  lemma {:induction false} TicksLead(s: State, n: nat)
    requires s.pc == Asleep
    ensures Leads(s, Ticks(s, n)) && Ticks(s, n).pc == Asleep
  {
    hide Leads;
    if n == 0 {
      LeadsSelf(s);
    } else {
      TicksLead(s, n - 1);
      TickLeads(Ticks(s, n - 1));
      LeadsTrans(s, Ticks(s, n - 1), Ticks(s, n));
    }
  }

  /** A request for STANDBY. */
  function Asked(s: State): State {
    Next(Next(s, AskStandby), DropNominal)
  }

  lemma AskLeads(s: State)
    ensures Leads(s, Asked(s))
  {
    hide Next, Leads;
    LeadsNext(s, AskStandby);
    LeadsNext(Next(s, AskStandby), DropNominal);
    LeadsTrans(s, Next(s, AskStandby), Asked(s));
  }

  /** One request for STANDBY in each of n ticks. */
  function Rounds(s: State, n: nat): State {
    if n == 0 then s else Ended(Asked(Rounds(s, n - 1)))
  }

  /** No request is pending and the mode task sleeps. */
  predicate Idle(s: State) {
    s.pc == Asleep && !s.reqSafe && !s.reqStandby && !s.reqNominal
  }

  /** What one such round leaves: nothing pending, and one more tick counted. */
  lemma RoundIdle(s: State)
    requires Idle(s)
    ensures var t := Ended(Asked(s)); Idle(t) && t.ticks == (s.ticks + 1) % U32 && |t.past.ends| == |s.past.ends| + 1
  {
  }

  lemma StartIdle(first: Mode)
    ensures var s := Start(first); Idle(s) && s.ticks == 0 && s.past.ends == []
  {
  }

  /** The counter can be driven to any value from the start. */
  lemma {:induction false} RoundsCount(first: Mode, n: nat)
    requires n < U32
    ensures var t := Rounds(Start(first), n); Idle(t) && t.ticks == n && |t.past.ends| == n
  {
    hide Ended, Asked, Start;
    if n == 0 {
      StartIdle(first);
    } else {
      hide Idle;
      RoundsCount(first, n - 1);
      RoundIdle(Rounds(Start(first), n - 1));
    }
  }

  lemma {:induction false} RoundsLead(first: Mode, n: nat)
    requires n < U32
    ensures Leads(Start(first), Rounds(Start(first), n))
  {
    hide Leads, Ended, Asked;
    if n == 0 {
      LeadsSelf(Start(first));
    } else {
      RoundsLead(first, n - 1);
      RoundsCount(first, n - 1);
      var t := Rounds(Start(first), n - 1);
      AskLeads(t);
      AskedAsleep(t);
      TickLeads(Asked(t));
      LeadsTrans(Start(first), t, Asked(t));
      LeadsTrans(Start(first), Asked(t), Ended(Asked(t)));
    }
  }

  lemma AskedAsleep(s: State)
    ensures Asked(s).pc == s.pc
  {
  }

  lemma EndsGrow(s: State)
    ensures Ended(s).past.ends == s.past.ends + [Ended(s).mode]
  {
  }

  /** A stay in STANDBY is one in the history of ticks. */
  lemma {:induction false} StayRecorded(s: State, n: nat)
    requires StaysFor(s, n)
    ensures AllStandby(Ticks(s, n).past.ends, |s.past.ends|, n)
    ensures |Ticks(s, n).past.ends| == |s.past.ends| + n
  {
    if n > 0 {
      hide Ended;
      assert Ticks(s, n).mode == Standby;
      StayRecorded(s, n - 1);
      EndsGrow(Ticks(s, n - 1));
    }
  }

  /** The stay of 300 ticks is real: a run from the start of the Mode Manager, of requests for STANDBY and
      ticks, has one, beginning after 2^32 - 1 ticks. */
  lemma LongStay(first: Mode) returns (accesses: seq<Access>)
    ensures AllStandby(Run(Start(first), accesses).past.ends, U32 - 1, TIMEOUT)
  {
    hide Leads, Asked, Rounds, Run, Ended;
    var t := Rounds(Start(first), U32 - 1);
    RoundsCount(first, U32 - 1);
    RoundsLead(first, U32 - 1);
    var s := Asked(t);
    AskLeads(t);
    AskedStays(t);
    TicksLead(s, TIMEOUT);
    LeadsTrans(Start(first), t, s);
    LeadsTrans(Start(first), s, Ticks(s, TIMEOUT));
    LongStayExact(s);
    StayRecorded(s, TIMEOUT);
    accesses := Witness(Start(first), Ticks(s, TIMEOUT));
  }

  lemma Witness(s: State, t: State) returns (accesses: seq<Access>)
    requires Leads(s, t)
    ensures Run(s, accesses) == t
  {
    accesses :| Run(s, accesses) == t;
  }

  lemma AskedStays(s: State)
    requires !s.reqSafe && !s.reqNominal
    ensures Staying(Asked(s)) && Asked(s).ticks == s.ticks && Asked(s).past.ends == s.past.ends
    ensures Asked(s).pc == s.pc
  {
  }
}
