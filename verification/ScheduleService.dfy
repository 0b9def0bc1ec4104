/** The activity table of `src/pus/s11.c`, proved against `Schedule`. */
module ScheduleService {
  import opened Bytes
  import opened KeyedTable
  import Schedule
  import Verification

  class S11 {
    const s1: Verification.S1
    /** Request ID, release time and packet of each activity, unordered. */
    const acts: array<Row<Schedule.Job>>
    var count: nat
    var nextId: u16
    var enabled: bool

    ghost function Rows(): seq<Row<Schedule.Job>>
      requires count <= acts.Length
      reads this, acts
    {
      acts[..count]
    }

    ghost function Jobs(): map<u16, Schedule.Job>
      requires count <= acts.Length
      reads this, acts
    {
      AsMap(Rows())
    }

    /** Request IDs in the table are distinct and not zero, and every stored packet was checked. */
    ghost predicate Intact()
      reads this, acts
    {
      && count <= acts.Length <= 255
      && Distinct(Rows()) && 0 !in Jobs()
      && Schedule.AllStorable(Jobs())
    }

    ghost predicate Valid()
      reads this, acts, s1, s1.store, s1.store.slots
    {
      s1.store.Valid() && Intact()
    }

    ghost function View(): Schedule.Schedule
      requires count <= acts.Length
      reads this, acts
    {
      Schedule.Schedule(Jobs(), nextId, enabled)
    }

    /** `obsw_s11_init`. */
    constructor (s1: Verification.S1, acts: array<Row<Schedule.Job>>)
      requires s1.store.Valid() && acts.Length <= 255
      ensures Valid() && this.s1 == s1 && this.acts == acts
      ensures View() == Schedule.Schedule(map[], 1, true)
    {
      this.s1, this.acts, count, nextId, enabled := s1, acts, 0, 1, true;
    }

    /** `find_act`: the row with a request ID, or the count. */
    method FindAct(id: u16) returns (k: nat)
      requires count <= acts.Length && Distinct(Rows())
      ensures k <= count && (k < count <==> id in Jobs()) && (k < count ==> acts[k].key == id)
    {
      k := 0;
      while k < count && acts[k].key != id
        invariant k <= count && forall i | 0 <= i < k :: acts[i].key != id
      {
        k := k + 1;
      }
      FirstRow(Rows(), id, k);
    }

    /** `take_id`. The search ends: at most the 255 identifiers in the table and zero are passed. */
    method TakeId() returns (id: u16)
      requires Valid()
      modifies this`nextId
      ensures id == Schedule.FreshId(old(View())) && id != 0 && id !in Jobs()
      ensures nextId == Next16(id)
    {
      hide Schedule.Ahead, Schedule.Passes, Schedule.NextFree, Next16;
      ghost var blocked := Jobs().Keys + {0};
      BlockedSize(Rows());
      ghost var steps := Schedule.NextFreeSkips(nextId, blocked);
      ghost var k := 0;
      id := nextId;
      SearchStart(nextId);
      var row := FindAct(id);
      while id == 0 || row < count
        modifies {}
        invariant k <= steps && id == Schedule.Ahead(nextId, k)
        invariant id == 0 || row < count <==> id in blocked
        decreases steps - k
      {
        SearchStep(nextId, blocked, k, steps);
        id := Next16(id);
        k := k + 1;
        row := FindAct(id);
      }
      SearchEnd(nextId, blocked, k, steps);
      nextId := Next16(id);
    }

    /** `remove_at`: the last activity moves into the hole. */
    method RemoveAt(k: nat)
      requires Valid() && k < count
      modifies this`count, acts
      ensures Valid() && View() == old(View()).(jobs := old(Jobs()) - {old(acts[k].key)})
      ensures count == old(count) - 1
    {
      KeyedTable.Remove(Rows(), k);
      ghost var rows := Rows();
      count := count - 1;
      acts[k] := acts[count];
      assert Rows() == SwapRemove(rows, k);
    }

    /** The table part of TC(11,4). */
    method Store(job: Schedule.Job)
      requires Valid() && Schedule.Storable(job.tc) && count < acts.Length
      modifies this`count, this`nextId, acts
      ensures Valid()
      ensures var s := old(View()); var id := Schedule.FreshId(s);
        View() == s.(jobs := s.jobs[id := job], nextId := Next16(id))
    {
      ghost var rows := Rows();
      var id := TakeId();
      acts[count] := Row(id, job);
      count := count + 1;
      KeyedTable.Append(rows, Row(id, job));
      assert Rows() == rows + [Row(id, job)];
    }

    /** `obsw_s11_insert`, TC(11,4). */
    method Insert(tc: Verification.Tc) returns (rc: int)
      requires Valid()
      modifies this`count, this`nextId, acts, s1, s1.store, s1.store.slots
      ensures Valid()
      ensures (View(), s1.View(), rc == 0) == Schedule.Insert(acts.Length, old(View()), old(s1.View()), tc)
    {
      hide Verification.Reporter.Report, Verification.TcRef, Schedule.NextFree, AsMap, Distinct;
      var u := tc.userData;
      if |u| <= Schedule.TAG_LEN || !Schedule.Storable(u[Schedule.TAG_LEN..]) {
        s1.AcceptFailure(tc, Verification.FAIL_ILLEGAL_APP_DATA);
        return -1;
      }
      MapSize(Rows());
      if count >= acts.Length {
        s1.AcceptFailure(tc, Verification.FAIL_EXEC_ERROR);
        return -1;
      }
      s1.AcceptSuccess(tc);
      Store(Schedule.Job(Be32(u), Be16(u[4..]), u[Schedule.TAG_LEN..]));
      s1.CompletionSuccess(tc);
      return 0;
    }

    /** `obsw_s11_delete`, TC(11,5). */
    method Delete(tc: Verification.Tc) returns (rc: int)
      requires Valid()
      modifies this`count, acts, s1, s1.store, s1.store.slots
      ensures Valid()
      ensures (View(), s1.View(), rc == 0) == Schedule.Delete(old(View()), old(s1.View()), tc)
    {
      hide Verification.Reporter.Report, Verification.TcRef, Schedule.AllStorable, Distinct;
      var u := tc.userData;
      var k := count;
      if |u| >= 2 {
        k := FindAct(Be16(u));
      }
      if k == count {
        s1.AcceptFailure(tc, Verification.FAIL_ILLEGAL_APP_DATA);
        return -1;
      }
      s1.AcceptSuccess(tc);
      RemoveAt(k);
      s1.CompletionSuccess(tc);
      return 0;
    }

    /** `obsw_s11_delete_all`, TC(11,6). */
    method DeleteAll(tc: Verification.Tc) returns (rc: int)
      requires Valid()
      modifies this`count, s1, s1.store, s1.store.slots
      ensures Valid()
      ensures (View(), s1.View(), rc == 0) == Schedule.DeleteAll(old(View()), old(s1.View()), tc)
    {
      s1.AcceptSuccess(tc);
      count := 0;
      s1.CompletionSuccess(tc);
      return 0;
    }

    /** `obsw_s11_enable`, TC(11,17). */
    method Enable(tc: Verification.Tc) returns (rc: int)
      requires Valid()
      modifies this`enabled, s1, s1.store, s1.store.slots
      ensures Valid()
      ensures (View(), s1.View(), rc == 0) == Schedule.Enable(old(View()), old(s1.View()), tc)
    {
      s1.AcceptSuccess(tc);
      enabled := true;
      s1.CompletionSuccess(tc);
      return 0;
    }

    /** `obsw_s11_disable`, TC(11,18). */
    method Disable(tc: Verification.Tc) returns (rc: int)
      requires Valid()
      modifies this`enabled, s1, s1.store, s1.store.slots
      ensures Valid()
      ensures (View(), s1.View(), rc == 0) == Schedule.Disable(old(View()), old(s1.View()), tc)
    {
      s1.AcceptSuccess(tc);
      enabled := false;
      s1.CompletionSuccess(tc);
      return 0;
    }

    /** The inner loop of `obsw_s11_run`: the row of the earliest due activity, or the count. */
    method FindEarliest(now: nat) returns (next: nat)
      requires Valid()
      ensures next <= count
      ensures next < count ==> Schedule.Earliest(Jobs(), now, acts[next].key)
                               && acts[next].value == Jobs()[acts[next].key]
      ensures next == count ==> !Schedule.AnyDue(Jobs(), now)
    {
      next := count;
      for i := 0 to count
        invariant Best(Rows(), now, i, next)
      {
        var a := acts[i];
        var t := Schedule.Key(a.value.coarse, a.value.fine);
        if t > now {
          continue;
        }
        if next == count
           || t < Schedule.Key(acts[next].value.coarse, acts[next].value.fine)
           || (t == Schedule.Key(acts[next].value.coarse, acts[next].value.fine) && a.key < acts[next].key) {
          next := i;
        } else {
          DistinctKeys(Rows(), next, i);
        }
      }
      BestIsEarliest(Rows(), now, next);
    }
  }

  predicate RowDue(r: Row<Schedule.Job>, now: nat) {
    r.value.Tag() <= now
  }

  predicate RowBefore(a: Row<Schedule.Job>, b: Row<Schedule.Job>) {
    || a.value.coarse < b.value.coarse
    || (a.value.coarse == b.value.coarse && a.value.fine < b.value.fine)
    || (Schedule.SameTime(a.value, b.value) && a.key < b.key)
  }

  /** Of the first i rows, `next` is the earliest due one, or none is due and next is the row count. */
  ghost predicate Best(t: seq<Row<Schedule.Job>>, now: nat, i: nat, next: nat) {
    && i <= |t|
    && if next == |t| then forall j | 0 <= j < i :: !RowDue(t[j], now)
       else next < i && RowDue(t[next], now)
            && forall j | 0 <= j < i && j != next :: RowDue(t[j], now) ==> RowBefore(t[next], t[j])
  }

  lemma DistinctKeys(t: seq<Row<Schedule.Job>>, a: nat, b: nat)
    requires Distinct(t) && a < b < |t|
    ensures t[a].key != t[b].key
  {
  }

  lemma BestIsEarliest(t: seq<Row<Schedule.Job>>, now: nat, next: nat)
    requires Distinct(t) && Best(t, now, |t|, next)
    ensures next == |t| ==> !Schedule.AnyDue(AsMap(t), now)
    ensures next < |t| ==> Schedule.Earliest(AsMap(t), now, t[next].key)
                           && AsMap(t)[t[next].key] == t[next].value
  {
    MapAll(t);
    forall b: u16 | b in AsMap(t) && Schedule.Due(AsMap(t), now, b)
      ensures next < |t| && (b != t[next].key ==> Schedule.Before(AsMap(t), t[next].key, b))
    {
      var j :| 0 <= j < |t| && t[j].key == b;
      assert RowDue(t[j], now);
    }
  }

  lemma SearchStart(next: u16)
    ensures Schedule.Ahead(next, 0) == next
  {
  }

  /** A blocked identifier is not the last of the search. */
  lemma SearchStep(next: u16, blocked: set<u16>, k: nat, steps: nat)
    requires k <= steps && Schedule.Ahead(next, steps) !in blocked && Schedule.Ahead(next, k) in blocked
    ensures k < steps && Next16(Schedule.Ahead(next, k)) == Schedule.Ahead(next, k + 1)
  {
  }

  lemma SearchEnd(next: u16, blocked: set<u16>, k: nat, steps: nat)
    requires k <= steps && Schedule.Passes(next, steps, blocked) && Schedule.Ahead(next, k) !in blocked
    ensures k == steps
  {
  }

  lemma BlockedSize(t: seq<Row<Schedule.Job>>)
    requires Distinct(t) && |t| <= 255
    ensures |AsMap(t).Keys + {0}| <= 256
  {
    MapSize(t);
    var keys := AsMap(t).Keys;
    assert |keys| == |AsMap(t)|;
    if 0 in keys {
      assert keys + {0} == keys;
    } else {
      assert |keys + {0}| == |keys| + 1;
    }
  }
}
