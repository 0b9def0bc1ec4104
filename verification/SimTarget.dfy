/** The routing table and the whitelist of the host simulation (`sim/main.c`, `srdb/data/telecommands.yaml`). */
module SimTarget {
  import opened Bytes
  import opened Executive
  import Dispatcher
  import Fsm
  import TcPacket
  import Verification
  import Whitelist

  /** Every route accepts any APID. */
  function AnyApid(service: u8, subservice: u8, h: Handler): Route {
    Route(0xFFFF, service, subservice, h)
  }

  const ROUTES: seq<Route> := [
    AnyApid(17, 1, Ping), AnyApid(8, 1, Perform),
    AnyApid(3, 1, HkDefine), AnyApid(3, 3, HkDelete), AnyApid(3, 5, HkEnable), AnyApid(3, 6, HkDisable),
    AnyApid(20, 1, SetParam), AnyApid(20, 3, GetParam), AnyApid(9, 128, SetObt),
    AnyApid(6, 2, MemLoad), AnyApid(6, 5, MemCheck), AnyApid(6, 9, MemDump),
    AnyApid(12, 1, MonEnable), AnyApid(12, 2, MonDisable), AnyApid(12, 3, MonAdd), AnyApid(12, 4, MonDelete),
    AnyApid(12, 5, MonDeleteAll),
    AnyApid(11, 4, SchedInsert), AnyApid(11, 5, SchedDelete), AnyApid(11, 6, SchedDeleteAll),
    AnyApid(11, 17, SchedEnable), AnyApid(11, 18, SchedDisable),
    AnyApid(19, 1, ActAdd), AnyApid(19, 2, ActDelete), AnyApid(19, 3, ActDeleteAll), AnyApid(19, 4, ActEnable),
    AnyApid(19, 5, ActDisable)
  ]

  /** Each route of the table leads to a handler of the service it names. */
  lemma RoutesAreWell()
    ensures Dispatcher.WellRouted(ROUTES)
  {
    FirstRoutes();
    OtherRoutes();
  }

  lemma FirstRoutes()
    ensures forall i | 0 <= i < 13 :: ROUTES[i].handler.Service() == ROUTES[i].service
  {
  }

  lemma OtherRoutes()
    ensures forall i | 13 <= i < |ROUTES| :: ROUTES[i].handler.Service() == ROUTES[i].service
  {
  }

  /** The telecommands of the database, with what it allows in SAFE and STANDBY. */
  const DATABASE: seq<Whitelist.Telecommand> := [
    Whitelist.Telecommand(17, 1, true), Whitelist.Telecommand(3, 5, false), Whitelist.Telecommand(3, 1, false),
    Whitelist.Telecommand(3, 3, false), Whitelist.Telecommand(3, 6, false), Whitelist.Telecommand(8, 1, true),
    Whitelist.Telecommand(9, 128, true), Whitelist.Telecommand(20, 1, false), Whitelist.Telecommand(20, 3, true)
  ]

  predicate AllowedInSafe(service: u8, subservice: u8) {
    (service, subservice) in [(17, 1), (8, 1), (9, 128), (20, 3)]
  }

  lemma DatabaseAllows(service: u8, subservice: u8)
    ensures Whitelist.SafeAllowed(DATABASE, Fsm.Pair(service, subservice)) <==> AllowedInSafe(service, subservice)
  {
    assert DATABASE[0] == Whitelist.Telecommand(17, 1, true) && DATABASE[5] == Whitelist.Telecommand(8, 1, true);
    assert DATABASE[6] == Whitelist.Telecommand(9, 128, true) && DATABASE[8] == Whitelist.Telecommand(20, 3, true);
  }

  /**
    With the generated whitelist, outside NOMINAL a telecommand is gated if and only if it is none of TC(17,1),
    TC(8,1), TC(9,128) and TC(20,3); and then it does nothing but report its rejection: no memory is loaded
    or dumped, no parameter set, and no schedule, event-action, limit check or housekeeping set changed,
    whoever sent it.
    */
  lemma OnlyFourInSafe(c: Config, o: Obsw, frame: bytes)
    requires Whitelist.Lists(c.whitelist, DATABASE) && o.fsm.mode != Fsm.Nominal
    requires TcPacket.Extract(frame).Some?
    ensures var tc := TcPacket.Extract(frame).value;
      && (Feed(c, o, frame).1 == ErrGated <==> !AllowedInSafe(tc.service, tc.subservice))
      && (Feed(c, o, frame).1 == ErrGated ==>
            Feed(c, o, frame).0 == o.(s1 := o.s1.Reject(tc, Verification.FAIL_MODE_GATED)))
  {
    hide TcPacket.Extract, Verification.Reporter.Report, FindRoute, Handle;
    var tc := TcPacket.Extract(frame).value;
    DatabaseAllows(tc.service, tc.subservice);
    assert Fsm.Pair(tc.service, tc.subservice) in c.whitelist
       <==> Whitelist.SafeAllowed(DATABASE, Fsm.Pair(tc.service, tc.subservice));
  }
}
