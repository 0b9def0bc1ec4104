/**
  PUS service 11, time-based scheduling, as ground sees it: pending activities by request ID, and
  the order in which a run releases those that are due. `ScheduleService` refines it.
  */
module Schedule {
  import opened Bytes
  import TcPacket
  import Verification

  const TAG_LEN := 6
  const TC_MAX_LEN := 64

  type Verify = Verification.Reporter
  type Tc = Verification.Tc

  /** A stored telecommand and its release time. */
  datatype Job = Job(coarse: u32, fine: u16, tc: bytes) {
    /** CUC-4,2 as one comparable value. */
    function Tag(): nat {
      Key(coarse, fine)
    }
  }

  function Key(coarse: u32, fine: u16): nat {
    coarse as int * U16 + fine
  }

  /** The first time is earlier than the second, or they are the same. */
  predicate NotAfter(c1: u32, f1: u16, c2: u32, f2: u16) {
    c1 < c2 || (c1 == c2 && f1 <= f2)
  }

  predicate SameTime(a: Job, b: Job) {
    a.coarse == b.coarse && a.fine == b.fine
  }

  /** Comparing these values is comparing coarse and then fine time, and none stands for two times. */
  lemma KeyOrder(c1: u32, f1: u16, c2: u32, f2: u16)
    ensures Key(c1, f1) <= Key(c2, f2) <==> NotAfter(c1, f1, c2, f2)
    ensures Key(c1, f1) == Key(c2, f2) <==> c1 == c2 && f1 == f2
  {
    var x, y := c1 as int * U16, c2 as int * U16;
    if c1 < c2 {
      assert x + U16 <= y;
    } else if c2 < c1 {
      assert y + U16 <= x;
    }
  }

  datatype Schedule = Schedule(jobs: map<u16, Job>, nextId: u16, enabled: bool)

  /** What may be stored: a complete PUS TC packet that fits and is not a service 11 TC. */
  predicate Storable(pkt: bytes) {
    |pkt| <= TC_MAX_LEN && TcPacket.Check(pkt).Some? && TcPacket.Check(pkt).value != 11
  }

  ghost predicate AllStorable(jobs: map<u16, Job>) {
    forall id: u16 | id in jobs :: Storable(jobs[id].tc)
  }

  // ----- Request identifiers ------------------------------------------------------------------

  /** The first identifier at or after `next`, wrapping, that is not blocked. */
  function NextFree(next: u16, blocked: set<u16>): u16
    decreases |blocked|
  {
    if next in blocked then NextFree(Next16(next), blocked - {next}) else next
  }

  /** Zero and the identifiers in the table are never given out. */
  function FreshId(s: Schedule): u16 {
    NextFree(s.nextId, s.jobs.Keys + {0})
  }

  /** The k-th identifier from `next`, wrapping. */
  function Ahead(next: u16, k: nat): u16 {
    (next + k) % U16
  }

  /** The k identifiers from `next` are all blocked. */
  ghost predicate Passes(next: u16, k: nat, blocked: set<u16>) {
    forall j: nat | j < k :: Ahead(next, j) in blocked
  }

  /** The search passes only blocked identifiers, at most as many as there are, and ends unblocked. */
  lemma {:induction false} NextFreeSkips(next: u16, blocked: set<u16>) returns (k: nat)
    requires |blocked| < U16
    ensures k <= |blocked| && NextFree(next, blocked) == Ahead(next, k)
    ensures NextFree(next, blocked) !in blocked && Passes(next, k, blocked)
    decreases |blocked|
  {
    if next in blocked {
      var rest := blocked - {next};
      var m := NextFreeSkips(Next16(next), rest);
      k := m + 1;
      AheadNext(next, m);
      forall j: nat | j < k ensures Ahead(next, j) in blocked {
        if j > 0 {
          AheadNext(next, j - 1);
        }
      }
      AheadDistinct(next, 0, k);
    } else {
      k := 0;
    }
  }

  lemma AheadNext(next: u16, m: nat)
    ensures Ahead(Next16(next), m) == Ahead(next, m + 1)
  {
  }

  /** No identifier is met twice within one wrap. */
  lemma AheadDistinct(next: u16, j: nat, k: nat)
    requires j < k < j + U16
    ensures Ahead(next, j) != Ahead(next, k)
  {
  }

  // ----- Telecommands -------------------------------------------------------------------------

  function Insert(cap: nat, s: Schedule, v: Verify, tc: Tc): (Schedule, Verify, bool) {
    var u := tc.userData;
    if |u| <= TAG_LEN || !Storable(u[TAG_LEN..]) then
      (s, v.Reject(tc, Verification.FAIL_ILLEGAL_APP_DATA), false)
    else if |s.jobs| >= cap then
      (s, v.Reject(tc, Verification.FAIL_EXEC_ERROR), false)
    else
      var id := FreshId(s);
      (s.(jobs := s.jobs[id := Job(Be32(u), Be16(u[4..]), u[TAG_LEN..])], nextId := Next16(id)),
       v.Accept(tc).Complete(tc), true)
  }

  function Delete(s: Schedule, v: Verify, tc: Tc): (Schedule, Verify, bool) {
    var u := tc.userData;
    if |u| < 2 || Be16(u) !in s.jobs then (s, v.Reject(tc, Verification.FAIL_ILLEGAL_APP_DATA), false)
    else (s.(jobs := s.jobs - {Be16(u)}), v.Accept(tc).Complete(tc), true)
  }

  function DeleteAll(s: Schedule, v: Verify, tc: Tc): (Schedule, Verify, bool) {
    (s.(jobs := map[]), v.Accept(tc).Complete(tc), true)
  }

  function Enable(s: Schedule, v: Verify, tc: Tc): (Schedule, Verify, bool) {
    (s.(enabled := true), v.Accept(tc).Complete(tc), true)
  }

  function Disable(s: Schedule, v: Verify, tc: Tc): (Schedule, Verify, bool) {
    (s.(enabled := false), v.Accept(tc).Complete(tc), true)
  }

  // ----- Release order ------------------------------------------------------------------------

  predicate Due(jobs: map<u16, Job>, now: nat, id: u16) {
    id in jobs && jobs[id].Tag() <= now
  }

  /** Earlier coarse time first, then earlier fine time; equal times in request ID order. */
  predicate Before(jobs: map<u16, Job>, a: u16, b: u16)
    requires a in jobs && b in jobs
  {
    || jobs[a].coarse < jobs[b].coarse
    || (jobs[a].coarse == jobs[b].coarse && jobs[a].fine < jobs[b].fine)
    || (SameTime(jobs[a], jobs[b]) && a < b)
  }

  predicate Earliest(jobs: map<u16, Job>, now: nat, id: u16) {
    Due(jobs, now, id) && forall b: u16 | b in jobs :: Due(jobs, now, b) && b != id ==> Before(jobs, id, b)
  }

  predicate AnyDue(jobs: map<u16, Job>, now: nat) {
    exists id: u16 | id in jobs :: Due(jobs, now, id)
  }

  lemma {:induction false} EarliestExists(jobs: map<u16, Job>, now: nat)
    requires AnyDue(jobs, now)
    ensures exists id: u16 | id in jobs :: Earliest(jobs, now, id)
    decreases |jobs|
  {
    var a: u16 :| a in jobs && Due(jobs, now, a);
    var rest := jobs - {a};
    if AnyDue(rest, now) {
      EarliestExists(rest, now);
      var e: u16 :| e in rest && Earliest(rest, now, e);
      EarlierOfTwo(jobs, now, a, e);
    } else {
      OnlyDue(jobs, now, a);
    }
  }

  lemma EarlierOfTwo(jobs: map<u16, Job>, now: nat, a: u16, e: u16)
    requires Due(jobs, now, a) && e in jobs - {a} && Earliest(jobs - {a}, now, e)
    ensures Earliest(jobs, now, if Before(jobs, a, e) then a else e)
  {
    var first := if Before(jobs, a, e) then a else e;
    forall b: u16 | b in jobs && Due(jobs, now, b) && b != first ensures Before(jobs, first, b) {
      if b != a {
        assert Due(jobs - {a}, now, b);
      }
    }
  }

  lemma OnlyDue(jobs: map<u16, Job>, now: nat, a: u16)
    requires Due(jobs, now, a) && !AnyDue(jobs - {a}, now)
    ensures Earliest(jobs, now, a)
  {
    forall b: u16 | b in jobs && b != a ensures !Due(jobs, now, b) {
      assert b in jobs - {a} && !Due(jobs - {a}, now, b);
    }
  }

  /** The due activities in release order. */
  ghost function DueOrder(jobs: map<u16, Job>, now: nat): seq<u16>
    decreases |jobs|
  {
    if !AnyDue(jobs, now) then []
    else
      EarliestExists(jobs, now);
      var id: u16 :| id in jobs && Earliest(jobs, now, id);
      [id] + DueOrder(jobs - {id}, now)
  }

  lemma EarliestUnique(jobs: map<u16, Job>, now: nat, a: u16, b: u16)
    requires Earliest(jobs, now, a) && Earliest(jobs, now, b)
    ensures a == b
  {
  }

  /** There is no choice in the order: the earliest activity is unique. */
  lemma DueOrderFirst(jobs: map<u16, Job>, now: nat, id: u16)
    requires Earliest(jobs, now, id)
    ensures DueOrder(jobs, now) == [id] + DueOrder(jobs - {id}, now)
  {
    assert Due(jobs, now, id);
    EarliestExists(jobs, now);
    var x: u16 := DueOrder(jobs, now)[0];
    assert x in jobs && Earliest(jobs, now, x);
    EarliestUnique(jobs, now, x, id);
  }

  ghost predicate ExactlyDue(list: seq<u16>, jobs: map<u16, Job>, now: nat) {
    forall id: u16 :: id in list <==> Due(jobs, now, id)
  }

  ghost predicate InOrder(list: seq<u16>, jobs: map<u16, Job>) {
    && (forall i | 0 <= i < |list| :: list[i] in jobs)
    && forall i, j | 0 <= i < j < |list| :: Before(jobs, list[i], list[j])
  }

  lemma {:induction false} DueOrderExact(jobs: map<u16, Job>, now: nat)
    ensures ExactlyDue(DueOrder(jobs, now), jobs, now) && |DueOrder(jobs, now)| <= |jobs|
    decreases |jobs|
  {
    if AnyDue(jobs, now) {
      var id := DueOrder(jobs, now)[0];
      var rest := jobs - {id};
      var tail := DueOrder(rest, now);
      DueOrderExact(rest, now);
      forall x: u16 ensures x in [id] + tail <==> Due(jobs, now, x) {
        assert x in tail <==> Due(rest, now, x);
      }
    }
  }

  lemma {:induction false} DueOrderInOrder(jobs: map<u16, Job>, now: nat)
    ensures ExactlyDue(DueOrder(jobs, now), jobs, now) && InOrder(DueOrder(jobs, now), jobs)
    decreases |jobs|
  {
    DueOrderExact(jobs, now);
    if AnyDue(jobs, now) {
      var id := DueOrder(jobs, now)[0];
      var rest := jobs - {id};
      DueOrderInOrder(rest, now);
      PrependInOrder(jobs, now, id, DueOrder(rest, now));
    }
  }

  /** Released at a time: what is not after it. */
  predicate DueAt(jobs: map<u16, Job>, coarse: u32, fine: u16, id: u16) {
    id in jobs && NotAfter(jobs[id].coarse, jobs[id].fine, coarse, fine)
  }

  ghost predicate ExactlyDueAt(list: seq<u16>, jobs: map<u16, Job>, coarse: u32, fine: u16) {
    forall id: u16 :: id in list <==> DueAt(jobs, coarse, fine, id)
  }

  lemma DueIsAt(jobs: map<u16, Job>, coarse: u32, fine: u16, id: u16)
    ensures Due(jobs, Key(coarse, fine), id) <==> DueAt(jobs, coarse, fine, id)
  {
    hide Key;
    if id in jobs {
      KeyOrder(jobs[id].coarse, jobs[id].fine, coarse, fine);
    }
  }

  /** A run's list holds exactly the activities whose time is not after the time given, each once, sorted by coarse
      time, fine time and request ID. */
  lemma DueOrderSorted(jobs: map<u16, Job>, coarse: u32, fine: u16)
    ensures var list := DueOrder(jobs, Key(coarse, fine)); ExactlyDueAt(list, jobs, coarse, fine) && InOrder(list, jobs)
  {
    hide Due, DueAt, DueOrder, InOrder;
    DueOrderInOrder(jobs, Key(coarse, fine));
    forall id: u16 ensures Due(jobs, Key(coarse, fine), id) <==> DueAt(jobs, coarse, fine, id) {
      DueIsAt(jobs, coarse, fine, id);
    }
  }

  lemma PrependInOrder(jobs: map<u16, Job>, now: nat, id: u16, tail: seq<u16>)
    requires id in jobs && Earliest(jobs, now, id)
    requires ExactlyDue(tail, jobs - {id}, now) && InOrder(tail, jobs - {id})
    ensures InOrder([id] + tail, jobs)
  {
    var list := [id] + tail;
    forall i | 0 <= i < |tail| ensures tail[i] in jobs && Before(jobs, id, tail[i]) {
      assert Due(jobs - {id}, now, tail[i]);
      assert Due(jobs, now, tail[i]);
    }
    forall i, j | 0 <= i < j < |list| ensures Before(jobs, list[i], list[j]) {
      if i > 0 {
        assert Before(jobs - {id}, tail[i - 1], tail[j - 1]);
      }
    }
  }
}
