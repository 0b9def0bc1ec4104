/**
  Bookkeeping of service 11 over any sequence of its operations: every accepted insertion has exactly one
  fate, none is released twice, and request identifiers follow the order of insertion until they wrap.
  */
module ScheduleLedger {
  import opened Bytes
  import opened TimeBased = Schedule
  import Invariants
  import Verification

  /** What can happen to the schedule: a telecommand of the service, or an activity taken out to be fed. */
  datatype Op =
    | InsertTc(tc: Tc) | DeleteTc(tc: Tc) | DeleteAllTc(tc: Tc) | EnableTc(tc: Tc) | DisableTc(tc: Tc)
    | Take(id: u16)

  /** The schedule after an operation; what is reported meanwhile does not matter. */
  function Apply(cap: nat, s: Schedule, v: Verify, op: Op): Schedule {
    match op
    case InsertTc(tc) => Insert(cap, s, v, tc).0
    case DeleteTc(tc) => Delete(s, v, tc).0
    case DeleteAllTc(tc) => DeleteAll(s, v, tc).0
    case EnableTc(tc) => Enable(s, v, tc).0
    case DisableTc(tc) => Disable(s, v, tc).0
    case Take(id) => s.(jobs := s.jobs - {id})
  }

  datatype Status = Pending(id: u16) | Released | Deleted

  /** An accepted insertion: the activity it described and what became of it. */
  datatype Fate = Fate(job: Job, status: Status)

  /** A schedule, the fates of all insertions accepted so far in order of insertion, and which of them were
      released, in order of release. */
  datatype Ledger = Ledger(s: Schedule, fates: seq<Fate>, order: seq<nat>)

  /** The activity a TC(11,4) describes. */
  function JobOf(tc: Tc): Job {
    var u := tc.userData;
    if |u| >= TAG_LEN then Job(Be32(u), Be16(u[4..]), u[TAG_LEN..]) else Job(0, 0, [])
  }

  /** The pending insertions whose identifiers are gone were deleted. */
  function Settle(fates: seq<Fate>, left: map<u16, Job>): (r: seq<Fate>)
    ensures |r| == |fates|
  {
    seq(|fates|, i requires 0 <= i < |fates| =>
      if fates[i].status.Pending? && fates[i].status.id !in left then fates[i].(status := Deleted) else fates[i])
  }

  /** The pending insertion with an identifier, or the number of insertions. */
  function At(fates: seq<Fate>, id: u16): (k: nat)
    ensures k <= |fates| && (k < |fates| ==> fates[k].status == Pending(id))
    ensures k == |fates| ==> forall i | 0 <= i < |fates| :: fates[i].status != Pending(id)
  {
    if fates == [] then 0
    else
      var n := |fates| - 1;
      var k := At(fates[..n], id);
      if k < n then k else if fates[n].status == Pending(id) then n else n + 1
  }

  function Step(cap: nat, l: Ledger, v: Verify, op: Op): Ledger {
    var s := Apply(cap, l.s, v, op);
    match op
    case InsertTc(tc) =>
      if Insert(cap, l.s, v, tc).2 then l.(s := s, fates := l.fates + [Fate(JobOf(tc), Pending(FreshId(l.s)))])
      else l.(s := s)
    case Take(id) =>
      var k := At(l.fates, id);
      if k < |l.fates| then Ledger(s, l.fates[k := l.fates[k].(status := Released)], l.order + [k]) else l.(s := s)
    case _ => l.(s := s, fates := Settle(l.fates, s.jobs))
  }

  function Steps(cap: nat, l: Ledger, v: Verify, ops: seq<Op>): Ledger {
    if ops == [] then l else Step(cap, Steps(cap, l, v, ops[..|ops| - 1]), v, ops[|ops| - 1])
  }

  /** As initialised at boot. */
  function Boot(): Ledger {
    Ledger(TimeBased.Schedule(map[], 1, true), [], [])
  }

  // ----- The invariant ------------------------------------------------------------------------------------

  /** Pending fates and activities in the table correspond one to one, content included. */
  ghost predicate Matched(jobs: map<u16, Job>, fates: seq<Fate>) {
    && (forall i | 0 <= i < |fates| ::
          fates[i].status.Pending? ==> fates[i].status.id in jobs && jobs[fates[i].status.id] == fates[i].job)
    && (forall id: u16 | id in jobs :: exists i :: 0 <= i < |fates| && fates[i].status == Pending(id))
    && Injective(fates)
  }

  ghost predicate Injective(fates: seq<Fate>) {
    forall i, j | 0 <= i < j < |fates| ::
      fates[i].status.Pending? && fates[j].status.Pending? ==> fates[i].status.id != fates[j].status.id
  }

  /** Identifiers follow the order of insertion until they first wrap. */
  ghost predicate Numbered(nextId: u16, fates: seq<Fate>) {
    |fates| < U16 ==>
      && nextId == (|fates| + 1) % U16
      && forall i | 0 <= i < |fates| :: fates[i].status.Pending? ==> fates[i].status.id == i + 1
  }

  ghost predicate NoRepeats(order: seq<nat>) {
    forall i, j | 0 <= i < j < |order| :: order[i] != order[j]
  }

  /** The released insertions are listed, each once. */
  ghost predicate Listed(fates: seq<Fate>, order: seq<nat>) {
    && NoRepeats(order)
    && forall k: nat :: k in order <==> k < |fates| && fates[k].status.Released?
  }

  ghost predicate Inv(cap: nat, l: Ledger) {
    && |l.s.jobs| <= cap <= 255 && 0 !in l.s.jobs
    && Matched(l.s.jobs, l.fates) && Numbered(l.s.nextId, l.fates) && Listed(l.fates, l.order)
  }

  lemma SettleMatched(jobs: map<u16, Job>, left: map<u16, Job>, fates: seq<Fate>)
    requires Matched(jobs, fates)
    requires forall id: u16 | id in left :: id in jobs && left[id] == jobs[id]
    ensures Matched(left, Settle(fates, left))
  {
    var r := Settle(fates, left);
    forall id: u16 | id in left ensures exists i :: 0 <= i < |r| && r[i].status == Pending(id) {
      var i :| 0 <= i < |fates| && fates[i].status == Pending(id);
      assert r[i] == fates[i];
    }
  }

  lemma FewerJobs(jobs: map<u16, Job>, left: map<u16, Job>)
    requires left.Keys <= jobs.Keys
    ensures |left| <= |jobs|
  {
    Subset(left.Keys, jobs.Keys);
    assert |left| == |left.Keys| && |jobs| == |jobs.Keys|;
  }

  lemma {:induction false} Subset(a: set<u16>, b: set<u16>)
    requires a <= b
    ensures |a| <= |b|
  {
    if a != {} {
      var x :| x in a;
      Subset(a - {x}, b - {x});
    }
  }

  lemma Shrinks(cap: nat, l: Ledger, s: Schedule)
    requires Inv(cap, l) && s.nextId == l.s.nextId
    requires forall id: u16 | id in s.jobs :: id in l.s.jobs && s.jobs[id] == l.s.jobs[id]
    ensures Inv(cap, l.(s := s, fates := Settle(l.fates, s.jobs)))
  {
    hide Matched;
    SettleMatched(l.s.jobs, s.jobs, l.fates);
    FewerJobs(l.s.jobs, s.jobs);
  }

  /** Before the wrap the next identifier is free as it stands. */
  lemma FreshIsNext(l: Ledger)
    requires Matched(l.s.jobs, l.fates) && Numbered(l.s.nextId, l.fates) && |l.fates| < U16 - 1
    ensures FreshId(l.s) == |l.fates| + 1
  {
    assert l.s.nextId !in l.s.jobs;
  }

  lemma InsertKeeps(cap: nat, l: Ledger, v: Verify, tc: Tc)
    requires Inv(cap, l)
    ensures Inv(cap, Step(cap, l, v, InsertTc(tc)))
  {
    hide FreshId, Verification.Reporter.Report, Verification.TcRef, Matched, Numbered, Listed;
    if Insert(cap, l.s, v, tc).2 {
      Invariants.FreshIsFree(l.s);
      InsertMatched(l.s.jobs, l.fates, FreshId(l.s), JobOf(tc));
      InsertNumbered(l, JobOf(tc));
      InsertListed(l.fates, l.order, Fate(JobOf(tc), Pending(FreshId(l.s))));
    }
  }

  lemma InsertMatched(jobs: map<u16, Job>, fates: seq<Fate>, id: u16, job: Job)
    requires Matched(jobs, fates) && id !in jobs
    ensures Matched(jobs[id := job], fates + [Fate(job, Pending(id))])
  {
    var more := fates + [Fate(job, Pending(id))];
    assert more[|fates|].status == Pending(id);
    forall x: u16 | x in jobs ensures exists i :: 0 <= i < |more| && more[i].status == Pending(x) {
      var i :| 0 <= i < |fates| && fates[i].status == Pending(x);
      assert more[i] == fates[i];
    }
  }

  lemma InsertNumbered(l: Ledger, job: Job)
    requires Matched(l.s.jobs, l.fates) && Numbered(l.s.nextId, l.fates)
    ensures Numbered(Next16(FreshId(l.s)), l.fates + [Fate(job, Pending(FreshId(l.s)))])
  {
    hide FreshId;
    if |l.fates| < U16 - 1 {
      FreshIsNext(l);
    }
  }

  lemma InsertListed(fates: seq<Fate>, order: seq<nat>, f: Fate)
    requires Listed(fates, order) && f.status.Pending?
    ensures Listed(fates + [f], order)
  {
  }

  lemma TakeKeeps(cap: nat, l: Ledger, v: Verify, id: u16)
    requires Inv(cap, l)
    ensures Inv(cap, Step(cap, l, v, Take(id)))
  {
    hide At, Numbered, Listed, Matched;
    var k, left := At(l.fates, id), l.s.jobs - {id};
    FewerJobs(l.s.jobs, left);
    if k < |l.fates| {
      TakeMatched(l.s.jobs, l.fates, id, k);
      TakeListed(l.fates, l.order, k);
      TakeNumbered(l.s.nextId, l.fates, k);
    } else {
      NotPending(l.s.jobs, l.fates, id);
      assert left == l.s.jobs;
    }
  }

  lemma NotPending(jobs: map<u16, Job>, fates: seq<Fate>, id: u16)
    requires Matched(jobs, fates) && forall i | 0 <= i < |fates| :: fates[i].status != Pending(id)
    ensures id !in jobs
  {
  }

  lemma TakeMatched(jobs: map<u16, Job>, fates: seq<Fate>, id: u16, k: nat)
    requires Matched(jobs, fates) && k < |fates| && fates[k].status == Pending(id)
    ensures Matched(jobs - {id}, fates[k := fates[k].(status := Released)])
  {
    var r := fates[k := fates[k].(status := Released)];
    forall x: u16 | x in jobs - {id} ensures exists i :: 0 <= i < |r| && r[i].status == Pending(x) {
      var i :| 0 <= i < |fates| && fates[i].status == Pending(x);
      assert r[i] == fates[i];
    }
  }

  lemma TakeNumbered(nextId: u16, fates: seq<Fate>, k: nat)
    requires Numbered(nextId, fates) && k < |fates|
    ensures Numbered(nextId, fates[k := fates[k].(status := Released)])
  {
  }

  lemma TakeListed(fates: seq<Fate>, order: seq<nat>, k: nat)
    requires Listed(fates, order) && k < |fates| && fates[k].status.Pending?
    ensures Listed(fates[k := fates[k].(status := Released)], order + [k])
  {
    assert k !in order;
  }

  lemma StepKeeps(cap: nat, l: Ledger, v: Verify, op: Op)
    requires Inv(cap, l)
    ensures Inv(cap, Step(cap, l, v, op))
  {
    hide Verification.Reporter.Report, Verification.TcRef, Inv, Settle, At;
    match op {
      case InsertTc(tc) => InsertKeeps(cap, l, v, tc);
      case Take(id) => TakeKeeps(cap, l, v, id);
      case _ => Shrinks(cap, l, Apply(cap, l.s, v, op));
    }
  }

  lemma {:induction false} StepsKeep(cap: nat, l: Ledger, v: Verify, ops: seq<Op>)
    requires Inv(cap, l)
    ensures Inv(cap, Steps(cap, l, v, ops))
  {
    hide Step, Inv;
    if ops != [] {
      StepsKeep(cap, l, v, ops[..|ops| - 1]);
      StepKeeps(cap, Steps(cap, l, v, ops[..|ops| - 1]), v, ops[|ops| - 1]);
    }
  }

  // ----- Conservation -------------------------------------------------------------------------------------

  function PendingCount(fates: seq<Fate>): nat {
    if fates == [] then 0
    else PendingCount(fates[..|fates| - 1]) + if fates[|fates| - 1].status.Pending? then 1 else 0
  }

  function ReleasedCount(fates: seq<Fate>): nat {
    if fates == [] then 0
    else ReleasedCount(fates[..|fates| - 1]) + if fates[|fates| - 1].status.Released? then 1 else 0
  }

  function DeletedCount(fates: seq<Fate>): nat {
    if fates == [] then 0
    else DeletedCount(fates[..|fates| - 1]) + if fates[|fates| - 1].status.Deleted? then 1 else 0
  }

  function PendingIds(fates: seq<Fate>): set<u16> {
    set i | 0 <= i < |fates| && fates[i].status.Pending? :: fates[i].status.id
  }

  lemma {:induction false} CountIds(fates: seq<Fate>)
    requires Injective(fates)
    ensures PendingCount(fates) == |PendingIds(fates)|
  {
    if fates != [] {
      var n := |fates| - 1;
      CountIds(fates[..n]);
      IdsNext(fates);
      if fates[n].status.Pending? {
        LastIsNew(fates);
      }
    }
  }

  lemma IdsNext(fates: seq<Fate>)
    requires fates != []
    ensures var n := |fates| - 1;
      PendingIds(fates) == PendingIds(fates[..n]) + if fates[n].status.Pending? then {fates[n].status.id} else {}
  {
    var n := |fates| - 1;
    var before := PendingIds(fates[..n]);
    forall x: u16 | x in before ensures x in PendingIds(fates) {
      var i :| 0 <= i < n && fates[..n][i].status.Pending? && fates[..n][i].status.id == x;
      assert fates[i] == fates[..n][i];
    }
    forall x: u16 | x in PendingIds(fates)
      ensures x in before || (fates[n].status.Pending? && x == fates[n].status.id)
    {
      var i :| 0 <= i < |fates| && fates[i].status.Pending? && fates[i].status.id == x;
      assert i < n ==> fates[..n][i] == fates[i];
    }
  }

  lemma LastIsNew(fates: seq<Fate>)
    requires fates != [] && Injective(fates) && fates[|fates| - 1].status.Pending?
    ensures fates[|fates| - 1].status.id !in PendingIds(fates[..|fates| - 1])
  {
  }

  lemma {:induction false} CountsAdd(fates: seq<Fate>)
    ensures |fates| == PendingCount(fates) + ReleasedCount(fates) + DeletedCount(fates)
  {
    if fates != [] {
      CountsAdd(fates[..|fates| - 1]);
    }
  }

  function ReleasedSet(fates: seq<Fate>): set<nat> {
    set k: nat | k < |fates| && fates[k].status.Released?
  }

  lemma {:induction false} CountReleased(fates: seq<Fate>)
    ensures ReleasedCount(fates) == |ReleasedSet(fates)|
  {
    if fates != [] {
      var n := |fates| - 1;
      CountReleased(fates[..n]);
      assert ReleasedSet(fates) == ReleasedSet(fates[..n]) + if fates[n].status.Released? then {n} else {};
    }
  }

  function Elements(order: seq<nat>): set<nat> {
    set k | k in order
  }

  lemma {:induction false} OrderSize(order: seq<nat>)
    requires NoRepeats(order)
    ensures |Elements(order)| == |order|
  {
    if order != [] {
      var n := |order| - 1;
      OrderSize(order[..n]);
      assert order[n] !in order[..n];
      assert order == order[..n] + [order[n]];
      assert Elements(order) == Elements(order[..n]) + {order[n]};
    }
  }

  /** As many insertions were released as the order of release lists. */
  lemma ReleasedIsOrder(fates: seq<Fate>, order: seq<nat>)
    requires Listed(fates, order)
    ensures ReleasedCount(fates) == |order|
  {
    CountReleased(fates);
    OrderSize(order);
    assert ReleasedSet(fates) == Elements(order);
  }

  /** In every state the accepted insertions are the pending, the released and the deleted ones, each
      counted once, and the pending ones are the table. */
  lemma Counted(cap: nat, l: Ledger)
    requires Inv(cap, l)
    ensures |l.fates| == |l.s.jobs| + |l.order| + DeletedCount(l.fates)
  {
    CountsAdd(l.fates);
    CountIds(l.fates);
    ReleasedIsOrder(l.fates, l.order);
    assert PendingIds(l.fates) == l.s.jobs.Keys;
  }

  /**
    Over every sequence of operations from boot: accepted insertions are the pending, the released and the
    deleted ones, each counted once; the pending ones are the table; identifiers are distinct and never
    zero; and no insertion is released twice.
    */
  lemma Conservation(cap: nat, v: Verify, ops: seq<Op>)
    requires cap <= 255
    ensures var l := Steps(cap, Boot(), v, ops);
      && |l.fates| == |l.s.jobs| + |l.order| + DeletedCount(l.fates)
      && Matched(l.s.jobs, l.fates) && Listed(l.fates, l.order) && 0 !in l.s.jobs && |l.s.jobs| <= cap
  {
    hide Step;
    BootInv(cap);
    StepsKeep(cap, Boot(), v, ops);
    Counted(cap, Steps(cap, Boot(), v, ops));
  }

  lemma BootInv(cap: nat)
    requires cap <= 255
    ensures Inv(cap, Boot())
  {
    var l := Boot();
    assert Matched(l.s.jobs, l.fates) && Numbered(l.s.nextId, l.fates);
    assert Listed(l.fates, l.order);
  }

  // ----- Deletions ------------------------------------------------------------------------------------------

  /** The identifiers a TC(11,5) or TC(11,6) takes out of the table. */
  function Removes(s: Schedule, op: Op): set<u16> {
    match op
    case DeleteTc(tc) => if |tc.userData| >= 2 && Be16(tc.userData) in s.jobs then {Be16(tc.userData)} else {}
    case DeleteAllTc(_) => s.jobs.Keys
    case _ => {}
  }

  lemma AppliedRemoves(cap: nat, s: Schedule, v: Verify, op: Op)
    requires !op.InsertTc? && !op.Take?
    ensures Apply(cap, s, v, op).jobs == s.jobs - Removes(s, op)
  {
    hide Verification.Reporter.Report, Verification.TcRef;
    assert s.jobs - {} == s.jobs;
  }

  /** Exactly the insertions pending under a removed identifier become deleted; no other fate changes. */
  lemma DeletesExactly(cap: nat, l: Ledger, v: Verify, op: Op, i: nat)
    requires Inv(cap, l) && !op.InsertTc? && !op.Take? && i < |l.fates|
    ensures var t := Step(cap, l, v, op);
      && |t.fates| == |l.fates| && t.order == l.order
      && t.fates[i] == if l.fates[i].status.Pending? && l.fates[i].status.id in Removes(l.s, op)
                       then l.fates[i].(status := Deleted) else l.fates[i]
  {
    hide Apply, Removes, Numbered, Listed, At;
    AppliedRemoves(cap, l.s, v, op);
  }

  /** So deleted insertions are counted by the identifiers that TC(11,5) and TC(11,6) removed. */
  lemma DeletesCounted(cap: nat, l: Ledger, v: Verify, op: Op)
    requires Inv(cap, l)
    ensures DeletedCount(Step(cap, l, v, op).fates) == DeletedCount(l.fates) + |Removes(l.s, op)|
  {
    hide Inv, DeletedCount, FreshId, Verification.Reporter.Report, Verification.TcRef;
    var t := Step(cap, l, v, op);
    StepKeeps(cap, l, v, op);
    Counted(cap, l);
    Counted(cap, t);
    match op {
      case InsertTc(tc) => FreshInTable(cap, l);
      case Take(id) => TakenCount(cap, l, v, id);
      case _ =>
        hide Apply, Removes, Settle;
        AppliedRemoves(cap, l.s, v, op);
        RemovesListed(l.s, op);
        RemovedSize(l.s.jobs, Removes(l.s, op));
    }
  }

  lemma FreshInTable(cap: nat, l: Ledger)
    requires Inv(cap, l)
    ensures FreshId(l.s) !in l.s.jobs
  {
    hide FreshId, Matched, Numbered, Listed;
    Invariants.FreshIsFree(l.s);
  }

  lemma TakenCount(cap: nat, l: Ledger, v: Verify, id: u16)
    requires Inv(cap, l)
    ensures var t := Step(cap, l, v, Take(id));
      |t.fates| == |l.fates| && |t.s.jobs| + |t.order| == |l.s.jobs| + |l.order|
  {
    hide Numbered, Listed, Matched, Injective;
    PendingInTable(l.s.jobs, l.fates, id);
    if id in l.s.jobs {
      Invariants.SmallerMap(l.s.jobs, id);
    } else {
      assert l.s.jobs - {id} == l.s.jobs;
    }
  }

  lemma PendingInTable(jobs: map<u16, Job>, fates: seq<Fate>, id: u16)
    requires Matched(jobs, fates)
    ensures At(fates, id) < |fates| <==> id in jobs
  {
    hide Injective;
    var k := At(fates, id);
    if id in jobs {
      var i :| 0 <= i < |fates| && fates[i].status == Pending(id);
    }
    if k < |fates| {
      assert fates[k].status.Pending?;
    }
  }

  lemma RemovesListed(s: Schedule, op: Op)
    ensures Removes(s, op) <= s.jobs.Keys
  {
  }

  lemma RemovedSize(jobs: map<u16, Job>, ids: set<u16>)
    requires ids <= jobs.Keys
    ensures |jobs| == |jobs - ids| + |ids|
  {
    assert (jobs - ids).Keys == jobs.Keys - ids;
    assert |jobs.Keys - ids| == |jobs.Keys| - |ids|;
  }

  // ----- Ties -----------------------------------------------------------------------------------------------

  /** Pending activities with equal tags are released in the order of their insertion. */
  ghost predicate TiesInOrder(jobs: map<u16, Job>, fates: seq<Fate>)
    requires Matched(jobs, fates)
  {
    forall i, j | 0 <= i < j < |fates| ::
      fates[i].status.Pending? && fates[j].status.Pending? && SameTime(fates[i].job, fates[j].job)
      ==> Before(jobs, fates[i].status.id, fates[j].status.id)
  }

  /** Pending identifiers increase in the order of insertion. */
  ghost predicate IdsInOrder(fates: seq<Fate>) {
    forall i, j | 0 <= i < j < |fates| ::
      fates[i].status.Pending? && fates[j].status.Pending? ==> fates[i].status.id < fates[j].status.id
  }

  /** The exact guard: an accepted insertion keeps identifiers in order if and only if the identifier it is
      given exceeds every one in the table. */
  lemma InsertKeepsIds(cap: nat, l: Ledger, v: Verify, tc: Tc)
    requires Inv(cap, l) && IdsInOrder(l.fates) && Insert(cap, l.s, v, tc).2
    ensures IdsInOrder(Step(cap, l, v, InsertTc(tc)).fates) <==> forall id: u16 | id in l.s.jobs :: id < FreshId(l.s)
  {
    hide FreshId, Verification.Reporter.Report, Verification.TcRef, Numbered, Listed;
    var given, t := FreshId(l.s), Step(cap, l, v, InsertTc(tc));
    var n := |l.fates|;
    assert t.fates[n].status == Pending(given);
    if IdsInOrder(t.fates) {
      forall id: u16 | id in l.s.jobs ensures id < given {
        var i :| 0 <= i < n && l.fates[i].status == Pending(id);
        assert t.fates[i] == l.fates[i];
      }
    }
  }

  /** The same for the order of release: an accepted insertion keeps ties in insertion order if and only if
      its identifier exceeds that of every activity in the table with the same tag. */
  lemma InsertKeepsTies(cap: nat, l: Ledger, v: Verify, tc: Tc)
    requires Inv(cap, l) && TiesInOrder(l.s.jobs, l.fates) && Insert(cap, l.s, v, tc).2
    ensures var t := Step(cap, l, v, InsertTc(tc));
      && Inv(cap, t)
      && (TiesInOrder(t.s.jobs, t.fates) <==> Exceeds(FreshId(l.s), l.s.jobs, JobOf(tc)))
  {
    hide FreshId, Inv, TiesInOrder, Exceeds, Matched, Step, Insert;
    InsertKeeps(cap, l, v, tc);
    InsertStep(cap, l, v, tc);
    FreshInTable(cap, l);
    KeptMatched(cap, l);
    InsertMatched(l.s.jobs, l.fates, FreshId(l.s), JobOf(tc));
    TiesBroken(l.s.jobs, l.fates, FreshId(l.s), JobOf(tc));
    TiesKept(l.s.jobs, l.fates, FreshId(l.s), JobOf(tc));
  }

  lemma InsertStep(cap: nat, l: Ledger, v: Verify, tc: Tc)
    requires Insert(cap, l.s, v, tc).2
    ensures var t, given := Step(cap, l, v, InsertTc(tc)), FreshId(l.s);
      t.s.jobs == l.s.jobs[given := JobOf(tc)] && t.fates == l.fates + [Fate(JobOf(tc), Pending(given))]
  {
    hide FreshId, Verification.Reporter.Report, Verification.TcRef, Storable;
  }

  /** An identifier exceeds those in the table with the tag of an activity. */
  ghost predicate Exceeds(given: u16, jobs: map<u16, Job>, job: Job) {
    forall id: u16 | id in jobs && SameTime(jobs[id], job) :: id < given
  }

  lemma TiesBroken(jobs: map<u16, Job>, fates: seq<Fate>, given: u16, job: Job)
    requires Matched(jobs, fates) && given !in jobs
    requires Matched(jobs[given := job], fates + [Fate(job, Pending(given))])
    ensures TiesInOrder(jobs[given := job], fates + [Fate(job, Pending(given))]) ==> Exceeds(given, jobs, job)
  {
    var n, more, after := |fates|, fates + [Fate(job, Pending(given))], jobs[given := job];
    if TiesInOrder(after, more) {
      forall id: u16 | id in jobs && SameTime(jobs[id], job) ensures id < given {
        var i :| 0 <= i < n && fates[i].status == Pending(id);
        assert more[i] == fates[i] && more[n].status == Pending(given);
        assert Before(after, id, given);
      }
    }
  }

  lemma TiesKept(jobs: map<u16, Job>, fates: seq<Fate>, given: u16, job: Job)
    requires Matched(jobs, fates) && TiesInOrder(jobs, fates) && given !in jobs
    requires Matched(jobs[given := job], fates + [Fate(job, Pending(given))])
    ensures Exceeds(given, jobs, job) ==> TiesInOrder(jobs[given := job], fates + [Fate(job, Pending(given))])
  {
    var n, more, after := |fates|, fates + [Fate(job, Pending(given))], jobs[given := job];
    if Exceeds(given, jobs, job) {
      forall i, j | 0 <= i < j <= n && more[i].status.Pending? && more[j].status.Pending?
                    && SameTime(more[i].job, more[j].job)
        ensures Before(after, more[i].status.id, more[j].status.id)
      {
        assert more[i] == fates[i];
        if j < n {
          assert more[j] == fates[j];
          assert Before(jobs, fates[i].status.id, fates[j].status.id);
        }
      }
    }
  }

  /** Nothing but an insertion can disturb the order. */
  lemma OthersKeepIds(cap: nat, l: Ledger, v: Verify, op: Op)
    requires !op.InsertTc? && IdsInOrder(l.fates)
    ensures IdsInOrder(Step(cap, l, v, op).fates)
  {
    hide Apply, At;
  }

  /** Nor can it disturb the order of ties. */
  lemma OthersKeepTies(cap: nat, l: Ledger, v: Verify, op: Op)
    requires Inv(cap, l) && TiesInOrder(l.s.jobs, l.fates) && !op.InsertTc?
    ensures var t := Step(cap, l, v, op); Inv(cap, t) && TiesInOrder(t.s.jobs, t.fates)
  {
    hide Inv, Step, TiesInOrder;
    StepKeeps(cap, l, v, op);
    StepLeaves(cap, l, v, op);
    var t := Step(cap, l, v, op);
    KeptMatched(cap, l);
    KeptMatched(cap, t);
    TiesLeft(l.s.jobs, l.fates, t.s.jobs, t.fates);
  }

  lemma KeptMatched(cap: nat, l: Ledger)
    requires Inv(cap, l)
    ensures Matched(l.s.jobs, l.fates)
  {
  }

  /** What is still pending was pending before, in the same place. */
  lemma StepLeaves(cap: nat, l: Ledger, v: Verify, op: Op)
    requires !op.InsertTc?
    ensures var t := Step(cap, l, v, op);
      |t.fates| == |l.fates| && forall i | 0 <= i < |t.fates| :: t.fates[i].status.Pending? ==> t.fates[i] == l.fates[i]
  {
    hide Apply, At;
  }

  lemma TiesLeft(jobs: map<u16, Job>, fates: seq<Fate>, left: map<u16, Job>, rest: seq<Fate>)
    requires Matched(jobs, fates) && Matched(left, rest) && TiesInOrder(jobs, fates)
    requires |rest| == |fates| && forall i | 0 <= i < |rest| :: rest[i].status.Pending? ==> rest[i] == fates[i]
    ensures TiesInOrder(left, rest)
  {
    forall i, j | 0 <= i < j < |rest| && rest[i].status.Pending? && rest[j].status.Pending?
                  && SameTime(rest[i].job, rest[j].job)
      ensures Before(left, rest[i].status.id, rest[j].status.id)
    {
      assert Before(jobs, fates[i].status.id, fates[j].status.id);
    }
  }

  /** For the first 65535 insertions since boot the guard holds, and ties are in insertion order. */
  lemma FirstInOrder(cap: nat, v: Verify, ops: seq<Op>)
    requires cap <= 255 && |Steps(cap, Boot(), v, ops).fates| <= U16 - 1
    ensures var l := Steps(cap, Boot(), v, ops);
      Matched(l.s.jobs, l.fates) && IdsInOrder(l.fates) && TiesInOrder(l.s.jobs, l.fates)
  {
    hide Step;
    BootInv(cap);
    StepsKeep(cap, Boot(), v, ops);
  }

  // ----- The wrap is reached --------------------------------------------------------------------------------

  /** A TC packet that may be stored: a ping of APID 0x10. */
  function Ping(): bytes {
    [0x18, 0x10, 0xC0, 0x00, 0x00, 0x04, 0x20, 0x11, 0x01, 0x00, 0x00]
  }

  lemma PingStorable()
    ensures Storable(Ping())
  {
  }

  /** A TC(11,4) for that packet at time zero. */
  function InsertPing(): Tc {
    Verification.Tc(0x10, 11, 4, 0, [0, 0, 0, 0, 0, 0] + Ping())
  }

  function Clear(): Tc {
    Verification.Tc(0x10, 11, 6, 0, [])
  }

  lemma InsertPingAccepted(cap: nat, s: Schedule, v: Verify)
    requires |s.jobs| < cap
    ensures Insert(cap, s, v, InsertPing()).2 && JobOf(InsertPing()) == Job(0, 0, Ping())
    ensures Insert(cap, s, v, InsertPing()).0
         == s.(jobs := s.jobs[FreshId(s) := Job(0, 0, Ping())], nextId := Next16(FreshId(s)))
  {
    hide Storable, FreshId, Verification.Reporter.Report, Verification.TcRef;
    PingStorable();
    var u := InsertPing().userData;
    assert u[TAG_LEN..] == Ping();
    assert Be32(u) == 0 && Be16(u[4..]) == 0;
  }

  /** Insert one activity and clear the table, n times. */
  function Rounds(n: nat): seq<Op> {
    if n == 0 then [] else Rounds(n - 1) + [InsertTc(InsertPing())] + [DeleteAllTc(Clear())]
  }

  lemma StepsNext(cap: nat, l: Ledger, v: Verify, ops: seq<Op>, op: Op)
    ensures Steps(cap, l, v, ops + [op]) == Step(cap, Steps(cap, l, v, ops), v, op)
  {
    hide Step;
    assert (ops + [op])[..|ops|] == ops;
  }

  /** In an empty table an insertion is given the next identifier. */
  lemma FreshInEmpty(nextId: u16)
    requires nextId != 0
    ensures FreshId(TimeBased.Schedule(map[], nextId, true)) == nextId
  {
    assert TimeBased.Schedule(map[], nextId, true).jobs.Keys + {0} == {0};
  }

  lemma {:induction false} RoundsReach(cap: nat, v: Verify, n: nat)
    requires 0 < cap && n < U16 - 1
    ensures var l := Steps(cap, Boot(), v, Rounds(n));
      l.s == TimeBased.Schedule(map[], n + 1, true) && |l.fates| == n
  {
    hide Step;
    if n > 0 {
      RoundsReach(cap, v, n - 1);
      var x := Rounds(n - 1);
      StepsNext(cap, Boot(), v, x, InsertTc(InsertPing()));
      StepsNext(cap, Boot(), v, x + [InsertTc(InsertPing())], DeleteAllTc(Clear()));
      OneRound(cap, Steps(cap, Boot(), v, x), v, n);
    }
  }

  lemma OneRound(cap: nat, l: Ledger, v: Verify, n: nat)
    requires 0 < cap && 0 < n < U16 - 1 && l.s == TimeBased.Schedule(map[], n, true)
    ensures var t := Step(cap, Step(cap, l, v, InsertTc(InsertPing())), v, DeleteAllTc(Clear()));
      t.s == TimeBased.Schedule(map[], n + 1, true) && |t.fates| == |l.fates| + 1
  {
    hide FreshId, Insert, Verification.Reporter.Report, Verification.TcRef;
    InsertPingAccepted(cap, l.s, v);
    FreshInEmpty(n);
  }

  /** 65534 rounds and two more insertions. */
  function WrapRun(): seq<Op> {
    Rounds(U16 - 2) + [InsertTc(InsertPing())] + [InsertTc(InsertPing())]
  }

  /** The bound is exact: from boot, the 65536th insertion is given identifier 1, and goes before the 65535th
      although both have the same tag. */
  lemma WrapBreaksTies(cap: nat, v: Verify)
    requires 2 <= cap <= 255
    ensures var l := Steps(cap, Boot(), v, WrapRun());
      && |l.fates| == U16 && Matched(l.s.jobs, l.fates)
      && l.fates[U16 - 2].status == Pending(65535) && l.fates[U16 - 1].status == Pending(1)
      && l.fates[U16 - 2].job.Tag() == l.fates[U16 - 1].job.Tag()
      && Before(l.s.jobs, 1, 65535) && !TiesInOrder(l.s.jobs, l.fates)
  {
    hide Step, Rounds, Insert, FreshId, Verification.Reporter.Report, Verification.TcRef;
    var x := Rounds(U16 - 2);
    RoundsReach(cap, v, U16 - 2);
    var l0 := Steps(cap, Boot(), v, x);
    StepsNext(cap, Boot(), v, x, InsertTc(InsertPing()));
    StepsNext(cap, Boot(), v, x + [InsertTc(InsertPing())], InsertTc(InsertPing()));
    BootInv(cap);
    StepsKeep(cap, Boot(), v, WrapRun());
    LastTwo(cap, l0, v);
    var l := Steps(cap, Boot(), v, WrapRun());
    assert l.fates[U16 - 2].status.id in l.s.jobs && l.fates[U16 - 1].status.id in l.s.jobs;
    assert !Before(l.s.jobs, 65535, 1);
  }

  lemma LastTwo(cap: nat, l: Ledger, v: Verify)
    requires 2 <= cap && l.s == TimeBased.Schedule(map[], U16 - 1, true) && |l.fates| == U16 - 2
    ensures var t := Step(cap, Step(cap, l, v, InsertTc(InsertPing())), v, InsertTc(InsertPing()));
      && t.s == TimeBased.Schedule(map[65535 := Job(0, 0, Ping()), 1 := Job(0, 0, Ping())], 2, true)
      && t.fates == l.fates + [Fate(Job(0, 0, Ping()), Pending(65535))] + [Fate(Job(0, 0, Ping()), Pending(1))]
  {
    hide Insert, FreshId, Verification.Reporter.Report, Verification.TcRef;
    InsertPingAccepted(cap, l.s, v);
    FreshInEmpty(65535);
    var s1 := TimeBased.Schedule(map[65535 := Job(0, 0, Ping())], 0, true);
    assert Step(cap, l, v, InsertTc(InsertPing())).s == s1;
    InsertPingAccepted(cap, s1, v);
    FreshAtWrap(Job(0, 0, Ping()));
  }

  lemma FreshAtWrap(job: Job)
    ensures FreshId(TimeBased.Schedule(map[65535 := job], 0, true)) == 1
  {
    var blocked: set<u16> := {0, 65535};
    assert TimeBased.Schedule(map[65535 := job], 0, true).jobs.Keys + {0} == blocked;
    assert NextFree(0, blocked) == NextFree(1, blocked - {0}) == 1;
  }
}
