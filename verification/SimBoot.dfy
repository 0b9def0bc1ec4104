/** The state in which the host simulation enters its main loop (`sim/main.c` and the database under `srdb/data`). */
module SimBoot {
  import opened Bytes
  import opened Executive
  import opened Safety
  import A = ActionLedger
  import Dispatcher
  import EventAction
  import Fsm
  import HkModel
  import Invariants
  import MemoryModel
  import MonitorRuns
  import Monitoring
  import Obt
  import Parameters
  import PusTm
  import S = ScheduleLedger
  import Schedule
  import SimTarget
  import SmallServices
  import Verification

  const APID: u16 := 0x103

  function Whole(id: u16, value: u32): Parameters.Entry {
    Parameters.Entry(id, value, Parameters.U32Kind)
  }

  function Float(id: u16, bits: u32): Parameters.Entry {
    Parameters.Entry(id, bits, Parameters.F32Kind)
  }

  /** The S20 table with its values at boot; floats as their bit patterns. */
  const PARAMETERS: seq<Parameters.Entry> := [
    Whole(1, 0), Whole(2, 3300), Whole(3, 5000), Whole(4, 0), Whole(5, 0), Whole(6, 0), Whole(7, 30),
    Float(0x20A0, 0x461C4000), Float(0x20A3, 0x41700000), Float(0x20A1, 0x3F000000), Float(0x20A2, 0x3DCCCCCD),
    Float(0x3001, 0x44098000), Float(0x3002, 0x42C2CCCD),
    Float(0x3010, 0x3B03126F), Float(0x3011, 0x3B23D70A), Float(0x3012, 0x3AC49BA6), Float(0x3020, 0x41200000),
    Float(0x3030, 0x3F000000), Float(0x3031, 0x3F000000), Float(0x3032, 0x3F000000)
  ]

  function App(id: nat, size: HkModel.Size): HkModel.Param {
    HkModel.Param(HkModel.App(id), size)
  }

  function BootSet(id: u8, params: seq<HkModel.Param>, interval: u32): HkModel.HkSet {
    HkModel.HkSet(id, false, params, interval, interval, true)
  }

  /** The five boot-time housekeeping sets, bound to the widths of the database. */
  const SETS: seq<HkModel.HkSet> := [
    BootSet(1, [App(0, 2), App(1, 2), App(2, 2), App(3, 4)], 10),
    BootSet(2, [App(4, 2), App(5, 4), App(6, 4)], 60),
    BootSet(3, [App(7, 1), App(8, 4), App(9, 1), App(10, 1), App(11, 1), App(12, 2), App(13, 1)], 10),
    BootSet(4, [App(14, 4), App(15, 4), App(16, 4)], 5),
    BootSet(6, [App(17, 4), App(18, 4), App(19, 1)], 5)
  ]

  const PATCH_RAM: nat := 4096

  const FUNCTIONS: seq<SmallServices.FnEntry> := [
    SmallServices.FnEntry(1, SmallServices.RecoverNominal), SmallServices.FnEntry(2, SmallServices.RequestSafe),
    SmallServices.FnEntry(3, SmallServices.RequestStandby)
  ]

  /** The configuration of the simulation, but for the generated whitelist and triggers. */
  function Target(whitelist: seq<Fsm.Pair>, triggers: seq<u16>, convert: (Parameters.Kind, u32) -> u32): Config {
    Config(SimTarget.ROUTES, whitelist, triggers, HkModel.Config(9, Some(32), Parameters.Ids(PARAMETERS)),
           [MemoryModel.Region(0, 4096, 0, true, true)], FUNCTIONS, 8, 16, 8, convert)
  }

  function Idle(): SmallServices.Sender {
    SmallServices.Sender(APID, 0, 0)
  }

  /** The state the loop starts in: SAFE entered once, empty tables, an empty store. */
  function Boot(): Obsw {
    Obsw(Verification.Reporter(APID, 0, 0, PusTm.Downlink([], [])), HkModel.Hk(SETS, APID, 0, 0),
         MemoryModel.Mem(seq(PATCH_RAM, _ => 0), APID, 0, 0), Obt.Time(0, 0, 0),
         Schedule.Schedule(map[], 1, true), Monitoring.Monitor([], true), Idle(),
         EventAction.Actions(map[], true, [], 0), SmallServices.Params(PARAMETERS, Idle()),
         Fsm.State(Fsm.Safe, 1), Idle())
  }

  lemma BootHk()
    ensures Invariants.HkSound(HkModel.Config(9, Some(32), Parameters.Ids(PARAMETERS)), SETS)
  {
    NoCells(SETS);
  }

  lemma {:induction false} NoCells(sets: seq<HkModel.HkSet>)
    requires forall i | 0 <= i < |sets| :: !sets[i].defined
    ensures HkModel.Cells(sets) == 0
  {
    if sets != [] {
      NoCells(sets[1..]);
    }
  }

  /** What every theorem over runs asks of the state a run starts from holds of the state at boot. */
  lemma BootReady(whitelist: seq<Fsm.Pair>, triggers: seq<u16>, convert: (Parameters.Kind, u32) -> u32)
    ensures var c := Target(whitelist, triggers, convert);
      && Bounded(c) && Sound(c, Boot()) && Dispatcher.WellRouted(c.routes)
      && Boot().schedule == S.Boot().s && Boot().actions == A.Boot().a
      && MonitorRuns.AllClear(Boot().monitor.defs)
  {
    hide Invariants.HkSound;
    BootHk();
    SimTarget.RoutesAreWell();
    PusTm.EmptyFaithful([]);
  }
}
