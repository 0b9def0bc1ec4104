/**
  Stored telecommands: what one run of the schedule and one batch of event actions feed to the
  dispatcher, and what they leave behind. Because a stored packet was checked when it was stored, and
  is never one of its own service, the table being run is out of its reach.
  */
module Release {
  import opened Bytes
  import opened Dispatcher
  import opened Executive
  import opened Invariants
  import opened Safety
  import EventAction
  import Schedule
  import TcPacket

  /** One call of the dispatcher's feed: the state it was made in, and the packet. */
  datatype Call = Call(before: Obsw, frame: bytes)

  // ----- Service 11 -----------------------------------------------------------------------------

  /** The state in which the last of some activities is fed: it has left the schedule. */
  function Taken(o: Obsw, id: u16): Obsw {
    o.(schedule := o.schedule.(jobs := o.schedule.jobs - {id}))
  }

  function ReleaseCalls(c: Config, o: Obsw, ids: seq<u16>): seq<Call> {
    if ids == [] then []
    else
      var n := |ids| - 1;
      var before := Executive.Release(c, o, ids[..n]);
      ReleaseCalls(c, o, ids[..n])
      + (if ids[n] in before.schedule.jobs then [Call(Taken(before, ids[n]), before.schedule.jobs[ids[n]].tc)] else [])
  }

  ghost predicate Pending(jobs: map<u16, Schedule.Job>, ids: seq<u16>) {
    && (forall i | 0 <= i < |ids| :: ids[i] in jobs)
    && forall i, j | 0 <= i < j < |ids| :: ids[i] != ids[j]
  }

  function Ids(ids: seq<u16>): set<u16> {
    set i | 0 <= i < |ids| :: ids[i]
  }

  lemma IdsNext(ids: seq<u16>)
    requires ids != []
    ensures Ids(ids) == Ids(ids[..|ids| - 1]) + {ids[|ids| - 1]}
  {
    var n := |ids| - 1;
    forall x: u16 | x in Ids(ids) ensures x in Ids(ids[..n]) + {ids[n]} {
      var i :| 0 <= i < |ids| && ids[i] == x;
      if i < n {
        assert ids[..n][i] == x;
      }
    }
    forall x: u16 | x in Ids(ids[..n]) ensures x in Ids(ids) {
      var i :| 0 <= i < n && ids[..n][i] == x;
      assert ids[i] == x;
    }
  }

  /** One released activity: the rest of the schedule is exactly as before. */
  lemma ReleaseOneTable(c: Config, o: Obsw, id: u16)
    requires WellRouted(c.routes) && id in o.schedule.jobs && Schedule.Storable(o.schedule.jobs[id].tc)
    ensures ReleaseOne(c, o, id).schedule == Taken(o, id).schedule
  {
    hide Executive.Feed;
    var pkt := o.schedule.jobs[id].tc;
    TcPacket.CheckedExtracts(pkt);
    FeedIsolated(c, Taken(o, id), pkt);
  }

  /** What is fed is what the activities held when the run began, in the order of the list; each has
      left the schedule when it is fed; the others stay as they are. */
  ghost predicate ReleasedInOrder(o: Obsw, ids: seq<u16>, calls: seq<Call>) {
    && |calls| == |ids|
    && forall k | 0 <= k < |ids| :: ids[k] in o.schedule.jobs && calls[k].frame == o.schedule.jobs[ids[k]].tc
         && calls[k].before.schedule == o.schedule.(jobs := o.schedule.jobs - Ids(ids[..k + 1]))
  }

  lemma {:induction false} ReleaseAll(c: Config, o: Obsw, ids: seq<u16>)
    requires WellRouted(c.routes) && Schedule.AllStorable(o.schedule.jobs) && Pending(o.schedule.jobs, ids)
    ensures Executive.Release(c, o, ids).schedule == o.schedule.(jobs := o.schedule.jobs - Ids(ids))
    ensures ReleasedInOrder(o, ids, ReleaseCalls(c, o, ids))
  {
    hide ReleaseOne, Schedule.Storable;
    if ids == [] {
      assert o.schedule.jobs - Ids(ids) == o.schedule.jobs;
    } else {
      var n := |ids| - 1;
      ReleaseAll(c, o, ids[..n]);
      IdsNext(ids);
      NotYet(o.schedule.jobs, ids);
      var before := Executive.Release(c, o, ids[..n]);
      assert before.schedule.jobs - {ids[n]} == o.schedule.jobs - Ids(ids);
      ReleaseOneTable(c, before, ids[n]);
      PrefixOrder(o, ids, ReleaseCalls(c, o, ids[..n]));
      assert ids[..n + 1] == ids;
    }
  }

  lemma NotYet(jobs: map<u16, Schedule.Job>, ids: seq<u16>)
    requires ids != [] && Pending(jobs, ids)
    ensures ids[|ids| - 1] in jobs - Ids(ids[..|ids| - 1])
  {
  }

  lemma PrefixOrder(o: Obsw, ids: seq<u16>, calls: seq<Call>)
    requires ids != [] && ReleasedInOrder(o, ids[..|ids| - 1], calls)
    ensures forall k | 0 <= k < |ids| - 1 :: ids[k] in o.schedule.jobs
              && calls[k].frame == o.schedule.jobs[ids[k]].tc
              && calls[k].before.schedule == o.schedule.(jobs := o.schedule.jobs - Ids(ids[..k + 1]))
  {
    var p := ids[..|ids| - 1];
    forall k | 0 <= k < |ids| - 1 ensures p[k] == ids[k] && p[..k + 1] == ids[..k + 1] {
    }
  }

  ghost function ScheduleCalls(c: Config, o: Obsw): seq<Call> {
    if !o.schedule.enabled then [] else ReleaseCalls(c, o, DueIds(o))
  }

  /** The activities due at the time the clock shows. */
  ghost function DueIds(o: Obsw): seq<u16> {
    Schedule.DueOrder(o.schedule.jobs, Schedule.Key(o.obt.coarse, o.obt.fine))
  }

  /**
    One run of the enabled schedule feeds exactly the activities whose coarse and fine time is not after the
    clock's on entry, sorted by coarse time, fine time and request ID, and leaves exactly the others, whatever the
    released telecommands do, to the clock or anything else. A disabled schedule feeds nothing.
    */
  lemma RunReleasesDue(c: Config, o: Obsw)
    requires WellRouted(c.routes) && Schedule.AllStorable(o.schedule.jobs)
    ensures var t, jobs := o.obt, o.schedule.jobs;
      && Schedule.ExactlyDueAt(DueIds(o), jobs, t.coarse, t.fine) && Schedule.InOrder(DueIds(o), jobs)
      && (o.schedule.enabled ==> ReleasedInOrder(o, DueIds(o), ScheduleCalls(c, o)))
      && (!o.schedule.enabled ==> ScheduleCalls(c, o) == [])
      && RunSchedule(c, o).schedule.jobs
           == (if o.schedule.enabled then map id | id in jobs && !Schedule.DueAt(jobs, t.coarse, t.fine, id) :: jobs[id]
               else jobs)
      && RunSchedule(c, o).schedule.nextId == o.schedule.nextId
      && RunSchedule(c, o).schedule.enabled == o.schedule.enabled
  {
    hide Executive.Release, ReleaseCalls, ReleasedInOrder, Schedule.DueOrder, Schedule.Storable, Schedule.DueAt;
    hide Schedule.Before;
    var jobs := o.schedule.jobs;
    Schedule.DueOrderSorted(jobs, o.obt.coarse, o.obt.fine);
    if o.schedule.enabled {
      OrderPending(jobs, DueIds(o));
      ReleaseAll(c, o, DueIds(o));
      Remaining(jobs, o.obt.coarse, o.obt.fine, DueIds(o));
    }
  }

  lemma OrderPending(jobs: map<u16, Schedule.Job>, ids: seq<u16>)
    requires Schedule.InOrder(ids, jobs)
    ensures Pending(jobs, ids)
  {
    forall i, j | 0 <= i < j < |ids| ensures ids[i] != ids[j] {
      assert Schedule.Before(jobs, ids[i], ids[j]);
    }
  }

  lemma Remaining(jobs: map<u16, Schedule.Job>, coarse: u32, fine: u16, ids: seq<u16>)
    requires Schedule.ExactlyDueAt(ids, jobs, coarse, fine)
    ensures jobs - Ids(ids) == map id | id in jobs && !Schedule.DueAt(jobs, coarse, fine, id) :: jobs[id]
  {
    forall id: u16 ensures id in Ids(ids) <==> Schedule.DueAt(jobs, coarse, fine, id) {
      assert id in ids <==> Schedule.DueAt(jobs, coarse, fine, id);
    }
  }

  /** The earliest due activity of the table as it is now is the next of the list fixed on entry. */
  lemma ReleaseNext(c: Config, o: Obsw, ids: seq<u16>, k: nat, now: nat, id: u16)
    requires WellRouted(c.routes) && k <= |ids|
    requires var jobs := Executive.Release(c, o, ids[..k]).schedule.jobs;
      && Schedule.DueOrder(jobs, now) == ids[k..] && Schedule.Earliest(jobs, now, id)
      && Schedule.AllStorable(jobs)
    ensures k < |ids|
    ensures var before := Executive.Release(c, o, ids[..k]);
      var after := Feed(c, Taken(before, id), before.schedule.jobs[id].tc).0;
      && Executive.Release(c, o, ids[..k + 1]) == after
      && Schedule.DueOrder(after.schedule.jobs, now) == ids[k + 1..]
  {
    hide Feed, Schedule.DueOrder, Schedule.Storable;
    var before := Executive.Release(c, o, ids[..k]);
    Schedule.DueOrderFirst(before.schedule.jobs, now, id);
    assert ids[k..][0] == id && ids[k..][1..] == ids[k + 1..];
    assert ids[..k + 1][..k] == ids[..k] && ids[..k + 1][k] == id;
    ReleaseOneTable(c, before, id);
  }

  lemma NothingDue(jobs: map<u16, Schedule.Job>, now: nat)
    requires !Schedule.AnyDue(jobs, now)
    ensures Schedule.DueOrder(jobs, now) == []
  {
  }

  // ----- Service 19 -----------------------------------------------------------------------------

  function BatchCalls(c: Config, o: Obsw, batch: seq<u16>): seq<Call> {
    if batch == [] then []
    else
      var n := |batch| - 1;
      var before := RunBatch(c, o, batch[..n]);
      BatchCalls(c, o, batch[..n])
      + (if batch[n] in before.actions.defs then [Call(before, before.actions.defs[batch[n]])] else [])
  }

  /** The actions of a list of events, where they have one, in event order. */
  function ActionsFor(defs: map<u16, bytes>, batch: seq<u16>): (r: seq<bytes>)
    ensures |r| <= |batch|
  {
    if batch == [] then []
    else
      var n := |batch| - 1;
      ActionsFor(defs, batch[..n]) + (if batch[n] in defs then [defs[batch[n]]] else [])
  }

  function Frames(calls: seq<Call>): (r: seq<bytes>)
    ensures |r| == |calls|
  {
    seq(|calls|, i requires 0 <= i < |calls| => calls[i].frame)
  }

  lemma RunActionTable(c: Config, o: Obsw, event: u16)
    requires WellRouted(c.routes) && EventAction.AllValid(o.actions.defs)
    ensures QueuesOnly(o, RunAction(c, o, event))
  {
    hide Executive.Feed;
    if event in o.actions.defs {
      TcPacket.CheckedExtracts(o.actions.defs[event]);
      FeedIsolated(c, o, o.actions.defs[event]);
    }
  }

  lemma {:induction false} BatchAll(c: Config, o: Obsw, batch: seq<u16>)
    requires WellRouted(c.routes) && EventAction.AllValid(o.actions.defs)
    ensures QueuesOnly(o, RunBatch(c, o, batch))
    ensures Frames(BatchCalls(c, o, batch)) == ActionsFor(o.actions.defs, batch)
  {
    hide RunAction, EventAction.AllValid;
    if batch != [] {
      var n := |batch| - 1;
      BatchAll(c, o, batch[..n]);
      RunActionTable(c, RunBatch(c, o, batch[..n]), batch[n]);
    }
  }

  ghost function QueuedCalls(c: Config, o: Obsw): seq<Call> {
    BatchCalls(c, o.(actions := o.actions.(queue := [])), o.actions.queue)
  }

  /**
    One run of service 19 dispatches exactly the queue it found, in event order, each event with the
    action defined for it, and none for an event whose definition was deleted meanwhile. Definitions
    stay; what is queued afterwards was raised while the batch ran and waits for the next call.
    */
  lemma RunDispatchesQueue(c: Config, o: Obsw)
    requires WellRouted(c.routes) && EventAction.AllValid(o.actions.defs)
    ensures Frames(QueuedCalls(c, o)) == ActionsFor(o.actions.defs, o.actions.queue)
    ensures QueuesOnly(o.(actions := o.actions.(queue := [])), RunActions(c, o))
  {
    hide RunBatch, BatchCalls, ActionsFor;
    BatchAll(c, o.(actions := o.actions.(queue := [])), o.actions.queue);
  }

  lemma {:induction false} ActionsAreValid(defs: map<u16, bytes>, batch: seq<u16>, k: nat)
    requires EventAction.AllValid(defs) && k < |ActionsFor(defs, batch)|
    ensures EventAction.ActionValid(ActionsFor(defs, batch)[k])
  {
    hide EventAction.ActionValid;
    var n := |batch| - 1;
    if k < |ActionsFor(defs, batch[..n])| {
      ActionsAreValid(defs, batch[..n], k);
    }
  }

  /** A stored packet parses, and is not a telecommand of the service that stored it. */
  ghost predicate ParsesBeside(frame: bytes, service: u8) {
    TcPacket.Extract(frame).Some? && TcPacket.Extract(frame).value.service != service
  }

  /** What was checked when a telecommand was stored holds when it is fed: every stored packet parses,
      and none is of the service that feeds it, so that feeding never nests. */
  lemma StoredNeverNest(c: Config, o: Obsw)
    requires WellRouted(c.routes) && Schedule.AllStorable(o.schedule.jobs) && EventAction.AllValid(o.actions.defs)
    ensures forall k | 0 <= k < |ScheduleCalls(c, o)| :: ParsesBeside(ScheduleCalls(c, o)[k].frame, 11)
    ensures forall k | 0 <= k < |QueuedCalls(c, o)| :: ParsesBeside(QueuedCalls(c, o)[k].frame, 19)
  {
    hide ReleaseCalls, BatchCalls, RunSchedule, RunActions, DueIds, TcPacket.Extract, TcPacket.Check, ActionsFor;
    RunReleasesDue(c, o);
    RunDispatchesQueue(c, o);
    forall k | 0 <= k < |ScheduleCalls(c, o)| ensures ParsesBeside(ScheduleCalls(c, o)[k].frame, 11) {
      TcPacket.CheckedExtracts(ScheduleCalls(c, o)[k].frame);
    }
    forall k | 0 <= k < |QueuedCalls(c, o)| ensures ParsesBeside(QueuedCalls(c, o)[k].frame, 19) {
      ActionsAreValid(o.actions.defs, o.actions.queue, k);
      assert Frames(QueuedCalls(c, o))[k] == QueuedCalls(c, o)[k].frame;
      TcPacket.CheckedExtracts(QueuedCalls(c, o)[k].frame);
    }
  }
}
