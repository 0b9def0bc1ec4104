/**
  What the telecommands of the services that store telecommands do, from their octets to the tables
  (`src/pus/s11.c`, `src/pus/s19.c`).
  */
module StoredCommands {
  import opened Bytes
  import opened Executive
  import opened Uplink
  import EventAction
  import Schedule
  import Verification

  /** A complete telecommand packet of at most 64 octets, not of the service that stores it. */
  predicate Keepable(pkt: bytes, service: u8) {
    |pkt| <= 64 && Readable(pkt) && pkt[0] / 16 % 2 == 1 && pkt[7] != service
  }

  lemma KeepableIs(pkt: bytes)
    ensures Schedule.Storable(pkt) <==> Keepable(pkt, 11)
    ensures EventAction.ActionValid(pkt) <==> Keepable(pkt, 19)
  {
    if Readable(pkt) {
      var n := Announced(pkt);
      assert pkt[6..6 + n][1] == pkt[7];
    }
  }

  // ----- Service 11 ---------------------------------------------------------------------------------------

  /** The identifier j places after `next`, wrapping, is zero or in the table. */
  predicate Passed(next: u16, jobs: map<u16, Schedule.Job>, j: nat) {
    (next + j) % 65536 == 0 || (next + j) % 65536 in jobs
  }

  /** The first identifier at or after `next`, wrapping, that is neither zero nor in the table. */
  ghost predicate FirstFree(next: u16, jobs: map<u16, Schedule.Job>, id: u16) {
    id != 0 && id !in jobs && forall j: nat | j < (id as int - next as int) % 65536 :: Passed(next, jobs, j)
  }

  lemma Distance(next: u16, k: nat)
    requires k < 65536
    ensures ((next + k) % 65536 - next as int) % 65536 == k
  {
  }

  lemma BlockedSize(jobs: map<u16, Schedule.Job>)
    ensures |jobs.Keys + {0}| <= |jobs| + 1
  {
    if 0 in jobs.Keys {
      assert jobs.Keys + {0} == jobs.Keys;
    } else {
      assert |jobs.Keys + {0}| == |jobs.Keys| + 1;
    }
  }

  lemma FreshIsFirst(s: Schedule.Schedule)
    requires |s.jobs| <= 255
    ensures FirstFree(s.nextId, s.jobs, Schedule.FreshId(s))
  {
    var blocked := s.jobs.Keys + {0};
    BlockedSize(s.jobs);
    var k := Schedule.NextFreeSkips(s.nextId, blocked);
    PassesIs(s.nextId, s.jobs, k);
    hide Schedule.NextFree, Passed, Schedule.Passes;
    Distance(s.nextId, k);
  }

  lemma PassesIs(next: u16, jobs: map<u16, Schedule.Job>, k: nat)
    requires Schedule.Passes(next, k, jobs.Keys + {0})
    ensures forall j: nat | j < k :: Passed(next, jobs, j)
  {
    forall j: nat | j < k ensures Passed(next, jobs, j) {
      assert Schedule.Ahead(next, j) in jobs.Keys + {0};
    }
  }

  /** The answer to TC(11,4): the packet behind the time tag is stored under the first free identifier. */
  ghost predicate Inserted(c: Config, o: Obsw, f: (Obsw, Result), u: Uplink, id: u16)
    requires u.Valid()
  {
    var s, d := o.schedule, u.data;
    if |d| <= 6 || !Keepable(d[6..], 11) then Rejects(o, f, u, 5)
    else if |s.jobs| >= c.scheduleCap then Rejects(o, f, u, 4)
    else
      var job := Schedule.Job(coarse := Long(d, 0), fine := Word(d, 4), tc := d[6..]);
      && FirstFree(s.nextId, s.jobs, id)
      && Completes(o, f, u,
           o.(schedule := Schedule.Schedule(jobs := s.jobs[id := job], nextId := (id + 1) % 65536,
                                            enabled := s.enabled)), [])
  }

  lemma HandledSchedule(c: Config, o: Obsw, h: Handler, tc: Tc)
    requires h.Service() == 11
    ensures var (x, v, ok) := ScheduleOp(c.scheduleCap, o.schedule, o.s1, h, tc);
      Handle(c, o, h, tc) == (o.(schedule := x, s1 := v), ok)
  {
    hide ScheduleOp;
  }

  lemma Insert(c: Config, o: Obsw, u: Uplink)
    requires Sent(c, o, u, 11, 4) && c.scheduleCap <= 255
    ensures Inserted(c, o, Feed(c, o, u.Octets()), u, Schedule.FreshId(o.schedule))
  {
    hide Handle, Feed, Verification.Reporter.Report, Verification.TcRef, Done, Keepable, Schedule.Storable;
    hide Schedule.FreshId, FirstFree, Refused;
    FedTo(c, o, u, 11, 4);
    HandledSchedule(c, o, SchedInsert, u.Tc());
    var o' := Feed(c, o, u.Octets()).0;
    var d := u.data;
    if |d| <= 6 {
      RefusedBy(o, o', u, 5);
    } else {
      KeepableIs(d[6..]);
      ReadLong(d, 0);
      ReadWord(d, 4);
      assert d[0..] == d;
      if !Schedule.Storable(d[6..]) {
        RefusedBy(o, o', u, 5);
      } else if |o.schedule.jobs| >= c.scheduleCap {
        RefusedBy(o, o', u, 4);
      } else {
        FreshIsFirst(o.schedule);
        DoneBy(o, o', u);
      }
    }
  }

  /** The answer to TC(11,5): the activity named leaves the table. */
  ghost predicate Removed(o: Obsw, f: (Obsw, Result), u: Uplink)
    requires u.Valid()
  {
    var s, d := o.schedule, u.data;
    if |d| < 2 || Word(d, 0) !in s.jobs then Rejects(o, f, u, 5)
    else Completes(o, f, u, o.(schedule := s.(jobs := s.jobs - {Word(d, 0)})), [])
  }

  lemma Delete(c: Config, o: Obsw, u: Uplink)
    requires Sent(c, o, u, 11, 5)
    ensures Removed(o, Feed(c, o, u.Octets()), u)
  {
    hide Handle, Feed, Verification.Reporter.Report, Verification.TcRef, Done, Refused;
    FedTo(c, o, u, 11, 5);
    HandledSchedule(c, o, SchedDelete, u.Tc());
    var o' := Feed(c, o, u.Octets()).0;
    if |u.data| >= 2 && Word(u.data, 0) in o.schedule.jobs {
      DoneBy(o, o', u);
    } else {
      RefusedBy(o, o', u, 5);
    }
  }

  /** TC(11,6) empties the table, TC(11,17) and TC(11,18) switch the release on and off. */
  lemma DeleteAll(c: Config, o: Obsw, u: Uplink)
    requires Sent(c, o, u, 11, 6)
    ensures Completes(o, Feed(c, o, u.Octets()), u, o.(schedule := o.schedule.(jobs := map[])), [])
  {
    hide Handle, Feed, Verification.Reporter.Report, Verification.TcRef, Done;
    FedTo(c, o, u, 11, 6);
    HandledSchedule(c, o, SchedDeleteAll, u.Tc());
    DoneBy(o, Feed(c, o, u.Octets()).0, u);
  }

  lemma Enable(c: Config, o: Obsw, u: Uplink)
    requires Sent(c, o, u, 11, 17)
    ensures Completes(o, Feed(c, o, u.Octets()), u, o.(schedule := o.schedule.(enabled := true)), [])
  {
    hide Handle, Feed, Verification.Reporter.Report, Verification.TcRef, Done;
    FedTo(c, o, u, 11, 17);
    HandledSchedule(c, o, SchedEnable, u.Tc());
    DoneBy(o, Feed(c, o, u.Octets()).0, u);
  }

  lemma Disable(c: Config, o: Obsw, u: Uplink)
    requires Sent(c, o, u, 11, 18)
    ensures Completes(o, Feed(c, o, u.Octets()), u, o.(schedule := o.schedule.(enabled := false)), [])
  {
    hide Handle, Feed, Verification.Reporter.Report, Verification.TcRef, Done;
    FedTo(c, o, u, 11, 18);
    HandledSchedule(c, o, SchedDisable, u.Tc());
    DoneBy(o, Feed(c, o, u.Octets()).0, u);
  }

  // ----- Service 19 ---------------------------------------------------------------------------------------

  /** The answer to TC(19,1): the packet behind the event is its action, in place of an older one. */
  ghost predicate ActionSet(c: Config, o: Obsw, f: (Obsw, Result), u: Uplink)
    requires u.Valid()
  {
    var a, d := o.actions, u.data;
    if |d| < 2 || !Keepable(d[2..], 19) then Rejects(o, f, u, 5)
    else if Word(d, 0) !in a.defs && |a.defs| >= c.actionCap then Rejects(o, f, u, 4)
    else Completes(o, f, u, o.(actions := a.(defs := a.defs[Word(d, 0) := d[2..]])), [])
  }

  lemma HandledActions(c: Config, o: Obsw, h: Handler, tc: Tc)
    requires h.Service() == 19
    ensures var (x, v, ok) := ActionsOp(c.actionCap, o.actions, o.s1, h, tc);
      Handle(c, o, h, tc) == (o.(actions := x, s1 := v), ok)
  {
    hide ActionsOp;
  }

  lemma SetAction(c: Config, o: Obsw, u: Uplink)
    requires Sent(c, o, u, 19, 1)
    ensures ActionSet(c, o, Feed(c, o, u.Octets()), u)
  {
    hide Handle, Feed, Verification.Reporter.Report, Verification.TcRef, Done, Keepable, EventAction.ActionValid;
    hide Refused;
    FedTo(c, o, u, 19, 1);
    HandledActions(c, o, ActAdd, u.Tc());
    var o' := Feed(c, o, u.Octets()).0;
    var d := u.data;
    if |d| < 2 {
      RefusedBy(o, o', u, 5);
    } else {
      KeepableIs(d[2..]);
      if !EventAction.ActionValid(d[2..]) {
        RefusedBy(o, o', u, 5);
      } else if Word(d, 0) !in o.actions.defs && |o.actions.defs| >= c.actionCap {
        RefusedBy(o, o', u, 4);
      } else {
        DoneBy(o, o', u);
      }
    }
  }

  /** The answer to TC(19,2): the event has no action any more. */
  ghost predicate ActionGone(o: Obsw, f: (Obsw, Result), u: Uplink)
    requires u.Valid()
  {
    var a, d := o.actions, u.data;
    if |d| < 2 || Word(d, 0) !in a.defs then Rejects(o, f, u, 5)
    else Completes(o, f, u, o.(actions := a.(defs := a.defs - {Word(d, 0)})), [])
  }

  lemma DeleteAction(c: Config, o: Obsw, u: Uplink)
    requires Sent(c, o, u, 19, 2)
    ensures ActionGone(o, Feed(c, o, u.Octets()), u)
  {
    hide Handle, Feed, Verification.Reporter.Report, Verification.TcRef, Done, Refused;
    FedTo(c, o, u, 19, 2);
    HandledActions(c, o, ActDelete, u.Tc());
    var o' := Feed(c, o, u.Octets()).0;
    if |u.data| >= 2 && Word(u.data, 0) in o.actions.defs {
      DoneBy(o, o', u);
    } else {
      RefusedBy(o, o', u, 5);
    }
  }

  /** TC(19,3) empties the definitions; TC(19,4) switches the service on; TC(19,5) switches it off and discards
      the events that wait. */
  lemma DeleteActions(c: Config, o: Obsw, u: Uplink)
    requires Sent(c, o, u, 19, 3)
    ensures Completes(o, Feed(c, o, u.Octets()), u, o.(actions := o.actions.(defs := map[])), [])
  {
    hide Handle, Feed, Verification.Reporter.Report, Verification.TcRef, Done;
    FedTo(c, o, u, 19, 3);
    HandledActions(c, o, ActDeleteAll, u.Tc());
    DoneBy(o, Feed(c, o, u.Octets()).0, u);
  }

  lemma EnableActions(c: Config, o: Obsw, u: Uplink)
    requires Sent(c, o, u, 19, 4)
    ensures Completes(o, Feed(c, o, u.Octets()), u, o.(actions := o.actions.(enabled := true)), [])
  {
    hide Handle, Feed, Verification.Reporter.Report, Verification.TcRef, Done;
    FedTo(c, o, u, 19, 4);
    HandledActions(c, o, ActEnable, u.Tc());
    DoneBy(o, Feed(c, o, u.Octets()).0, u);
  }

  lemma DisableActions(c: Config, o: Obsw, u: Uplink)
    requires Sent(c, o, u, 19, 5)
    ensures Completes(o, Feed(c, o, u.Octets()), u, o.(actions := o.actions.(enabled := false, queue := [])), [])
  {
    hide Handle, Feed, Verification.Reporter.Report, Verification.TcRef, Done;
    FedTo(c, o, u, 19, 5);
    HandledActions(c, o, ActDisable, u.Tc());
    DoneBy(o, Feed(c, o, u.Octets()).0, u);
  }
}
