/** The tables of `src/pus/s19.c`, proved against `EventAction`. */
module EventActionService {
  import opened Bytes
  import EventAction
  import KeyedTable
  import Verification

  const QUEUE_LEN := EventAction.QUEUE_LEN

  class S19 {
    const s1: Verification.S1
    const defs: array<KeyedTable.Row<bytes>>
    var count: nat
    var enabled: bool
    const queue: array<u16>
    var queued: nat
    var dropped: u16

    ghost function Rows(): seq<KeyedTable.Row<bytes>>
      requires count <= defs.Length
      reads this, defs
    {
      defs[..count]
    }

    ghost predicate Intact()
      reads this, defs, queue
    {
      && count <= defs.Length <= 255 && queue.Length == QUEUE_LEN && queued <= QUEUE_LEN
      && KeyedTable.Distinct(Rows())
      && EventAction.AllValid(KeyedTable.AsMap(Rows()))
    }

    ghost predicate Valid()
      reads this, defs, queue, s1, s1.store, s1.store.slots
    {
      s1.store.Valid() && Intact()
    }

    ghost function View(): EventAction.Actions
      requires count <= defs.Length && queued <= queue.Length
      reads this, defs, queue
    {
      EventAction.Actions(KeyedTable.AsMap(Rows()), enabled, queue[..queued], dropped)
    }

    /** `obsw_s19_init`. */
    constructor (s1: Verification.S1, defs: array<KeyedTable.Row<bytes>>)
      requires s1.store.Valid() && defs.Length <= 255
      ensures Valid() && fresh(queue) && this.s1 == s1 && this.defs == defs
      ensures View() == EventAction.Actions(map[], true, [], 0)
    {
      this.s1, this.defs, count, enabled := s1, defs, 0, true;
      queue := new u16[QUEUE_LEN](_ => 0);
      queued, dropped := 0, 0;
    }

    /** `find_def`: the row of an event, or the count. */
    method FindDef(event: u16) returns (k: nat)
      requires Valid()
      ensures k <= count && (k < count <==> event in View().defs)
      ensures k < count ==> defs[k].key == event && defs[k].value == View().defs[event]
    {
      k := 0;
      while k < count && defs[k].key != event
        invariant k <= count && forall i | 0 <= i < k :: defs[i].key != event
      {
        k := k + 1;
      }
      KeyedTable.FirstRow(Rows(), event, k);
    }

    /** Write the definition of an event: a new row at the end, or the action of the row it has. */
    method Store(k: nat, event: u16, action: bytes)
      requires Valid() && EventAction.ActionValid(action) && k <= count && k < defs.Length
      requires if k < count then defs[k].key == event else event !in View().defs
      modifies this`count, defs
      ensures Valid() && View() == old(View()).(defs := old(View()).defs[event := action])
    {
      hide KeyedTable.AsMap, KeyedTable.Distinct, EventAction.ActionValid;
      ghost var rows := Rows();
      if k == count {
        KeyedTable.Append(rows, KeyedTable.Row(event, action));
        count := count + 1;
      } else {
        KeyedTable.Replace(rows, k, action);
      }
      defs[k] := KeyedTable.Row(event, action);
      assert Rows() == if k == |rows| then rows + [defs[k]] else rows[k := defs[k]];
    }

    /** The row a TC(19,1) writes to, or None where the table is full. */
    method RowFor(event: u16) returns (k: Option<nat>)
      requires Valid()
      ensures k.None? <==> event !in View().defs && |View().defs| >= defs.Length
      ensures k.Some? ==> k.value <= count && k.value < defs.Length
      ensures k.Some? ==> if k.value < count then defs[k.value].key == event else event !in View().defs
    {
      KeyedTable.MapSize(Rows());
      var row := FindDef(event);
      k := if row == count && count >= defs.Length then None else Some(row);
    }

    /** The accepted part of TC(19,1). */
    method Define(k: nat, event: u16, action: bytes, tc: Verification.Tc)
      requires Valid() && EventAction.ActionValid(action) && k <= count && k < defs.Length
      requires if k < count then defs[k].key == event else event !in View().defs
      modifies this`count, defs, s1, s1.store, s1.store.slots
      ensures Valid() && View() == old(View()).(defs := old(View()).defs[event := action])
      ensures s1.View() == old(s1.View()).Accept(tc).Complete(tc)
    {
      s1.AcceptSuccess(tc);
      Store(k, event, action);
      s1.CompletionSuccess(tc);
    }

    /** `obsw_s19_add`, TC(19,1). */
    method Add(tc: Verification.Tc) returns (rc: int)
      requires Valid()
      modifies this`count, defs, s1, s1.store, s1.store.slots
      ensures Valid()
      ensures (View(), s1.View(), rc == 0) == EventAction.Add(defs.Length, old(View()), old(s1.View()), tc)
    {
      hide KeyedTable.AsMap, KeyedTable.Distinct, EventAction.AllValid, Verification.Reporter.Report;
      hide Verification.TcRef;
      var u := tc.userData;
      if |u| < 2 || !EventAction.ActionValid(u[2..]) {
        s1.AcceptFailure(tc, Verification.FAIL_ILLEGAL_APP_DATA);
        return -1;
      }
      var k := RowFor(Be16(u));
      if k.None? {
        s1.AcceptFailure(tc, Verification.FAIL_EXEC_ERROR);
        return -1;
      }
      Define(k.value, Be16(u), u[2..], tc);
      return 0;
    }

    /** Keep the table packed: the last definition moves into the hole. */
    method RemoveAt(k: nat)
      requires Valid() && k < count
      modifies this`count, defs
      ensures Valid() && View() == old(View()).(defs := old(View()).defs - {old(defs[k].key)})
    {
      KeyedTable.Remove(Rows(), k);
      ghost var rows := Rows();
      count := count - 1;
      defs[k] := defs[count];
      assert Rows() == KeyedTable.SwapRemove(rows, k);
    }

    /** `obsw_s19_delete`, TC(19,2). */
    method Delete(tc: Verification.Tc) returns (rc: int)
      requires Valid()
      modifies this`count, defs, s1, s1.store, s1.store.slots
      ensures Valid()
      ensures (View(), s1.View(), rc == 0) == EventAction.Delete(old(View()), old(s1.View()), tc)
    {
      var u := tc.userData;
      var k := count;
      if |u| >= 2 {
        k := FindDef(Be16(u));
      }
      if k == count {
        s1.AcceptFailure(tc, Verification.FAIL_ILLEGAL_APP_DATA);
        return -1;
      }
      s1.AcceptSuccess(tc);
      RemoveAt(k);
      s1.CompletionSuccess(tc);
      return 0;
    }

    /** `obsw_s19_delete_all`, TC(19,3). */
    method DeleteAll(tc: Verification.Tc) returns (rc: int)
      requires Valid()
      modifies this`count, s1, s1.store, s1.store.slots
      ensures Valid()
      ensures (View(), s1.View(), rc == 0) == EventAction.DeleteAll(old(View()), old(s1.View()), tc)
    {
      s1.AcceptSuccess(tc);
      count := 0;
      s1.CompletionSuccess(tc);
      return 0;
    }

    /** `obsw_s19_enable`, TC(19,4). */
    method Enable(tc: Verification.Tc) returns (rc: int)
      requires Valid()
      modifies this`enabled, s1, s1.store, s1.store.slots
      ensures Valid()
      ensures (View(), s1.View(), rc == 0) == EventAction.Enable(old(View()), old(s1.View()), tc)
    {
      s1.AcceptSuccess(tc);
      enabled := true;
      s1.CompletionSuccess(tc);
      return 0;
    }

    /** `obsw_s19_disable`, TC(19,5). */
    method Disable(tc: Verification.Tc) returns (rc: int)
      requires Valid()
      modifies this`enabled, this`queued, s1, s1.store, s1.store.slots
      ensures Valid()
      ensures (View(), s1.View(), rc == 0) == EventAction.Disable(old(View()), old(s1.View()), tc)
    {
      s1.AcceptSuccess(tc);
      enabled := false;
      queued := 0;
      s1.CompletionSuccess(tc);
      return 0;
    }

    /** `obsw_s19_on_event`. */
    method OnEvent(event: u16)
      requires Valid()
      modifies this`queued, this`dropped, queue
      ensures Valid() && View() == EventAction.OnEvent(old(View()), event)
    {
      if !enabled {
        return;
      }
      var k := FindDef(event);
      if k == count {
        return;
      }
      if queued >= QUEUE_LEN {
        dropped := Next16(dropped);
        return;
      }
      ghost var q := queue[..queued];
      queue[queued] := event;
      queued := queued + 1;
      assert queue[..queued] == q + [event];
    }

    /** The first part of `obsw_s19_run`: the batch is taken and the queue left empty. */
    method TakeBatch() returns (batch: seq<u16>)
      requires Valid()
      modifies this`queued
      ensures Valid() && batch == old(View()).queue && View() == old(View()).(queue := [])
    {
      batch := queue[..queued];
      queued := 0;
    }
  }
}
