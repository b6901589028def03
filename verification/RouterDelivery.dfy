/** Where one dispatch leaves a packet, and which way a run of events has taught a router to
    send what is for a mote. */
module RouterDelivery {

  import opened Common
  import opened RoutingTables
  import opened MasterRouter
  import opened RouterAgeing

  // ---------- the outcome of one dispatch ----------

  /** Neither the router's own echo, nor a routing packet from outside that is out of TTL or
      back where it started. */
  predicate LetIn(self: Self, msg: Msg, from: Source) {
    && !(from.FromNeighbor? && from.neighborIP == self.ip)
    && (msg.body.Routing? && !from.FromTransport? ==> msg.body.ttl > 0 && msg.body.src != self.local)
  }

  predicate MeantForMe(self: Self, msg: Msg, from: Source) {
    var dst := DstMoteID(msg);
    dst == self.local || dst == ANY_MASTER || (from.FromMote? && dst == UART)
  }

  /** A unicast for someone else. */
  predicate Travels(self: Self, msg: Msg, from: Source) {
    LetIn(self, msg, from) && DstMoteID(msg) != BROADCAST && !MeantForMe(self, msg, from)
  }

  /** out is msg with the previous hop as given; a routing packet from outside has used up
      one of its TTL. */
  predicate Carries(out: Msg, msg: Msg, from: Source, prevhop: AddrMote) {
    match msg.body
    case Routing(src, dst, _, ttl, protocol) =>
      && (from.FromTransport? || ttl > 0)
      && out.body == Routing(src, dst, prevhop, if from.FromTransport? then ttl else ttl - 1, protocol)
    case _ => out.body == msg.body
  }

  predicate OneToMotes(self: Self, outs: seq<Out>, addr: AddrMote, msg: Msg, from: Source) {
    |outs| == 1 && outs[0].ToMotes? && outs[0].msg.addr == addr && Carries(outs[0].msg, msg, from, self.local)
  }

  /** One packet to the attached motes, if there are any. */
  predicate IfAttached(self: Self, outs: seq<Out>, addr: AddrMote, msg: Msg, from: Source) {
    if self.hasSF then OneToMotes(self, outs, addr, msg, from) else outs == []
  }

  predicate OneToMaster(outs: seq<Out>, ip: AddrMaster, masterIP: AddrMaster, msg: Msg, from: Source) {
    && |outs| == 1 && outs[0].ToMaster? && outs[0].ip == ip && outs[0].masterIP == masterIP
    && outs[0].msg.addr == msg.addr && Carries(outs[0].msg, msg, from, PrevHop(msg))
  }

  predicate OneToTransport(outs: seq<Out>, msg: Msg, from: Source) {
    && |outs| == 1 && outs[0].ToTransport? && outs[0].msg.addr == msg.addr
    && Carries(outs[0].msg, msg, from, PrevHop(msg))
  }

  function PrevHop(msg: Msg): (r: AddrMote) {
    if msg.body.Routing? then msg.body.prevhop else 0
  }

  /** The table sends what is for d to next mote hop of master home. */
  predicate Entered(node: Node, d: AddrMote, hop: AddrMote, home: AddrMaster) {
    d in node.mrt && node.mrt[d].nextMoteID == hop && node.mrt[d].masterIP == home
  }

  /** The packet does not first teach the router about its own destination. */
  predicate NotItsOwnLesson(msg: Msg, from: Source) {
    from.FromMote? ==> SrcMoteID(msg) != DstMoteID(msg)
  }

  /** For a mote of this master: one packet to the motes, through the next mote. */
  lemma ToOwnMote(self: Self, node: Node, msg: Msg, from: Source, masterIP: AddrMaster, hop: AddrMote)
    requires Travels(self, msg, from) && NotItsOwnLesson(msg, from) && self.ip != 0
    requires Entered(node, DstMoteID(msg), hop, self.ip)
    ensures IfAttached(self, DispatchOut(self, node, msg, from, masterIP), hop, msg, from)
  {
  }

  /** What a mote sends to itself goes back to the hop it came from. */
  lemma ToItself(self: Self, node: Node, msg: Msg, masterIP: AddrMaster)
    requires Travels(self, msg, FromMote) && SrcMoteID(msg) == DstMoteID(msg) != 0 && NextHopMoteID(msg) != 0
    requires self.ip != 0
    ensures IfAttached(self, DispatchOut(self, node, msg, FromMote, masterIP), NextHopMoteID(msg), msg, FromMote)
  {
  }

  /** The way to another master: by IPRT, and straight to it without a route. */
  function WayTo(t: Iprt, home: AddrMaster): (r: AddrMaster) {
    if home in t && t[home].nextHopIP != 0 then t[home].nextHopIP else home
  }

  /** For a mote of another master: one packet to that master, or to the next hop to it. */
  lemma ToOtherMaster(self: Self, node: Node, msg: Msg, from: Source, masterIP: AddrMaster,
                      hop: AddrMote, home: AddrMaster)
    requires Travels(self, msg, from) && NotItsOwnLesson(msg, from)
    requires Entered(node, DstMoteID(msg), hop, home) && home != self.ip
    requires WayTo(node.iprt, home) != 0 && WayTo(node.iprt, home) != self.ip
    ensures OneToMaster(DispatchOut(self, node, msg, from, masterIP), WayTo(node.iprt, home), masterIP, msg, from)
  {
  }

  /** A route that leads to another master through this one ends among its own motes, at
      the low 16 bits of its address. */
  lemma ThroughItself(self: Self, node: Node, msg: Msg, from: Source, masterIP: AddrMaster,
                      hop: AddrMote, home: AddrMaster)
    requires Travels(self, msg, from) && NotItsOwnLesson(msg, from) && self.ip != 0
    requires Entered(node, DstMoteID(msg), hop, home) && home != self.ip && WayTo(node.iprt, home) == self.ip
    ensures IfAttached(self, DispatchOut(self, node, msg, from, masterIP), self.ip % 0x1_0000, msg, from)
  {
  }

  /** For an unknown mote, or one of no master: one packet to the master whose address is
      derived from its id, unless the router only has a loopback address. */
  lemma ToUnknown(self: Self, node: Node, msg: Msg, from: Source, masterIP: AddrMaster)
    requires Travels(self, msg, from) && NotItsOwnLesson(msg, from)
    requires var dst := DstMoteID(msg);
             dst in node.mrt ==> node.mrt[dst].masterIP == 0 && WayTo(node.iprt, 0) == 0
    ensures var outs := DispatchOut(self, node, msg, from, masterIP);
            if Loopback(self) then outs == []
            else OneToMaster(outs, MoteIDtoIP(self, DstMoteID(msg)), masterIP, msg, from)
  {
  }

  /** What the local transport is handed, from outside only. */
  predicate Surfaces(self: Self, msg: Msg, from: Source) {
    !from.FromTransport? && LetIn(self, msg, from) && (DstMoteID(msg) == BROADCAST || MeantForMe(self, msg, from))
  }

  /** A routing packet from outside that comes with no TTL left. */
  predicate RunsOut(self: Self, msg: Msg, from: Source) {
    && !from.FromTransport? && !(from.FromNeighbor? && from.neighborIP == self.ip)
    && msg.body.Routing? && msg.body.ttl == 0
  }

  /** A packet is handed to the local transport exactly when it comes from outside and is a
      broadcast, for this master, for any master, or by a mote for the serial port; or when
      its TTL has run out and it is a TCMP packet, which then shows a TTL of 255.  It is
      handed over once, and goes nowhere else. */
  lemma ToTheTransport(self: Self, node: Node, msg: Msg, from: Source, masterIP: AddrMaster)
    ensures var outs := DispatchOut(self, node, msg, from, masterIP);
            if Surfaces(self, msg, from) then OneToTransport(outs, msg, from)
            else if RunsOut(self, msg, from) then
              outs == if msg.body.protocol == PROTOCOL_TCMP then [ToTransport(msg.(body := msg.body.(ttl := 255)))]
                      else []
            else forall o :: o in outs ==> !o.ToTransport?
  {
  }

  /** What is neither let in nor out of TTL is dropped. */
  lemma Dropped(self: Self, node: Node, msg: Msg, from: Source, masterIP: AddrMaster)
    requires !LetIn(self, msg, from) && !RunsOut(self, msg, from)
    ensures DispatchOut(self, node, msg, from, masterIP) == []
  {
  }

  /** What the local transport sends to its own motes, or to everybody. */
  lemma FromTheTransport(self: Self, node: Node, msg: Msg, masterIP: AddrMaster)
    requires MeantForMe(self, msg, FromTransport) || DstMoteID(msg) == BROADCAST
    ensures var outs := DispatchOut(self, node, msg, FromTransport, masterIP);
            var motes, all := (if self.hasSF then 1 else 0), DstMoteID(msg) == BROADCAST && !Loopback(self);
            && |outs| == motes + (if all then 1 else 0)
            && (self.hasSF ==> OneToMotes(self, outs[..1], msg.addr, msg, FromTransport))
            && (all ==> outs[motes].ToAllMasters? && outs[motes].masterIP == masterIP
                        && outs[motes].msg.addr == msg.addr
                        && Carries(outs[motes].msg, msg, FromTransport,
                                   if self.hasSF then self.local else PrevHop(msg)))
  {
  }

  // ---------- what events teach ----------

  /** The way to mote: by its next mote hop, at master home. */
  datatype Lesson = Lesson(mote: AddrMote, hop: AddrMote, home: AddrMaster)

  /** A mote's unicast teaches the way back to its source; so does any datagram from another
      master, a broadcast giving the master derived from the id. */
  function LessonOf(self: Self, ev: Event): (r: Option<Lesson>) {
    match ev
    case Packet(msg, from) =>
      if from.FromMote? && LetIn(self, msg, from) && DstMoteID(msg) != BROADCAST && SrcMoteID(msg) != 0
      then Some(Lesson(SrcMoteID(msg), NextHopMoteID(msg), self.ip)) else None
    case Datagram(fromIP, masterIP, msg) =>
      if fromIP != self.ip && SrcMoteID(msg) != 0
      then Some(Lesson(SrcMoteID(msg), SrcMoteID(msg),
                       if DstMoteID(msg) == BROADCAST then MoteIDtoIP(self, SrcMoteID(msg)) else masterIP))
      else None
    case _ => None
  }

  predicate About(l: Option<Lesson>, mote: AddrMote) {
    l.Some? && l.value.mote == mote
  }

  /** If the mote is in the table, it is with this way. */
  predicate Knows(node: Node, mote: AddrMote, hop: AddrMote, home: AddrMaster) {
    mote in node.mrt ==> Entered(node, mote, hop, home)
  }

  /** Before and after, as far as the way to one mote goes. */
  predicate SameWay(node: Node, node': Node, mote: AddrMote) {
    mote in node'.mrt ==> mote in node.mrt && Entered(node', mote, node.mrt[mote].nextMoteID, node.mrt[mote].masterIP)
  }

  lemma DispatchTeaches(self: Self, node: Node, msg: Msg, from: Source, mote: AddrMote)
    ensures var node' := DispatchNode(self, node, msg, from);
            var l := LessonOf(self, Packet(msg, from));
            if About(l, mote) && (l.value.hop != 0 || mote !in node.mrt) then
              Knows(node', mote, l.value.hop, l.value.home) && (mote != self.local ==> mote in node'.mrt)
            else SameWay(node, node', mote)
  {
  }

  lemma HeardTeaches(self: Self, node: Node, msg: Msg, masterIP: AddrMaster, fromIP: AddrMaster, mote: AddrMote)
    requires fromIP != self.ip
    ensures var node' := Heard(self, node, msg, masterIP, fromIP);
            var l := LessonOf(self, Datagram(fromIP, masterIP, msg));
            if About(l, mote) then
              Knows(node', mote, l.value.hop, l.value.home) && (mote != self.local ==> mote in node'.mrt)
            else SameWay(node, node', mote)
  {
  }

  /** An event changes the way to a mote exactly when it teaches it: a lesson without a next
      mote is only taken about an unknown one. */
  lemma StepTeaches(self: Self, node: Node, ev: Event, mote: AddrMote)
    ensures var node' := Step(self, node, ev);
            var l := LessonOf(self, ev);
            if About(l, mote) && (l.value.hop != 0 || mote !in node.mrt) then
              Knows(node', mote, l.value.hop, l.value.home) && (mote != self.local ==> mote in node'.mrt)
            else SameWay(node, node', mote)
  {
    match ev
    case Packet(msg, from) => DispatchTeaches(self, node, msg, from, mote);
    case Datagram(fromIP, masterIP, msg) =>
      if fromIP != self.ip {
        HeardTeaches(self, node, msg, masterIP, fromIP, mote);
        DispatchTeaches(self, Heard(self, node, msg, masterIP, fromIP), msg, FromNeighbor(fromIP), mote);
      }
    case RefreshMrt =>
    case RefreshIprt(_) =>
  }

  predicate NotAbout(self: Self, evs: seq<Event>, mote: AddrMote) {
    forall i :: 0 <= i < |evs| ==> !About(LessonOf(self, evs[i]), mote)
  }

  /** Until another event teaches the mote, the way to it stays as it is, if it is known at
      all. */
  lemma {:induction false} WayStays(self: Self, node: Node, evs: seq<Event>, mote: AddrMote,
                                    hop: AddrMote, home: AddrMaster)
    requires Knows(node, mote, hop, home) && NotAbout(self, evs, mote)
    ensures Knows(Run(self, node, evs), mote, hop, home)
    decreases |evs|
  {
    if evs != [] {
      StepTeaches(self, node, evs[0], mote);
      WayStays(self, Step(self, node, evs[0]), evs[1..], mote, hop, home);
    }
  }

  function Refreshes(evs: seq<Event>): (n: nat) {
    if evs == [] then 0 else (if evs[0] == RefreshMrt then 1 else 0) + Refreshes(evs[1..])
  }

  /** An entry that is used outlives one refresh, whatever else happens. */
  lemma {:induction false} OutlivesOne(self: Self, node: Node, evs: seq<Event>, mote: AddrMote)
    requires (Used(node, mote) && Refreshes(evs) <= 1) || (mote in node.mrt && Refreshes(evs) == 0)
    ensures mote in Run(self, node, evs).mrt
    decreases |evs|
  {
    if evs != [] {
      if evs[0] != RefreshMrt { StepMarks(self, node, evs[0], mote); }
      OutlivesOne(self, Step(self, node, evs[0]), evs[1..], mote);
    }
  }

  lemma LessonIsUsed(self: Self, node: Node, ev: Event, mote: AddrMote)
    requires About(LessonOf(self, ev), mote) && mote in Step(self, node, ev).mrt
    ensures Used(Step(self, node, ev), mote)
  {
    StepMarks(self, node, ev, mote);
  }

  /** After a lesson about the mote, with no later one and at most one refresh since, the way
      to it is the one taught. */
  lemma LastLesson(self: Self, node: Node, ev: Event, evs: seq<Event>, mote: AddrMote, hop: AddrMote, home: AddrMaster)
    requires LessonOf(self, ev) == Some(Lesson(mote, hop, home)) && hop != 0 && mote != self.local
    requires NotAbout(self, evs, mote) && Refreshes(evs) <= 1
    ensures Entered(Run(self, node, [ev] + evs), mote, hop, home)
  {
    var node' := Step(self, node, ev);
    assert ([ev] + evs)[1..] == evs;
    StepTeaches(self, node, ev, mote);
    LessonIsUsed(self, node, ev, mote);
    WayStays(self, node', evs, mote, hop, home);
    OutlivesOne(self, node', evs, mote);
  }

  /** A mote whose unicast has come in over some hop is sent to through that hop, and through
      no other master, until another event teaches the way to it or two refreshes have
      passed. */
  lemma BackThroughLastHop(self: Self, node: Node, lesson: Msg, evs: seq<Event>, mote: AddrMote, hop: AddrMote,
                           msg: Msg, from: Source, masterIP: AddrMaster)
    requires LessonOf(self, Packet(lesson, FromMote)) == Some(Lesson(mote, hop, self.ip)) && hop != 0
    requires NotAbout(self, evs, mote) && Refreshes(evs) <= 1
    requires mote != self.local && self.ip != 0 && self.hasSF
    requires DstMoteID(msg) == mote && Travels(self, msg, from) && NotItsOwnLesson(msg, from)
    ensures OneToMotes(self, DispatchOut(self, Run(self, node, [Packet(lesson, FromMote)] + evs), msg, from, masterIP),
                       hop, msg, from)
  {
    LastLesson(self, node, Packet(lesson, FromMote), evs, mote, hop, self.ip);
    ToOwnMote(self, Run(self, node, [Packet(lesson, FromMote)] + evs), msg, from, masterIP, hop);
  }

  /** And a mote last heard of through another master is sent to by way of that master. */
  lemma BackToItsMaster(self: Self, node: Node, lesson: Event, evs: seq<Event>, mote: AddrMote, hop: AddrMote,
                        home: AddrMaster, msg: Msg, from: Source, masterIP: AddrMaster)
    requires LessonOf(self, lesson) == Some(Lesson(mote, hop, home)) && hop != 0 && home != self.ip
    requires NotAbout(self, evs, mote) && Refreshes(evs) <= 1 && mote != self.local
    requires DstMoteID(msg) == mote && Travels(self, msg, from) && NotItsOwnLesson(msg, from)
    requires var way := WayTo(Run(self, node, [lesson] + evs).iprt, home); way != 0 && way != self.ip
    ensures var now := Run(self, node, [lesson] + evs);
            OneToMaster(DispatchOut(self, now, msg, from, masterIP), WayTo(now.iprt, home), masterIP, msg, from)
  {
    LastLesson(self, node, lesson, evs, mote, hop, home);
    ToOtherMaster(self, Run(self, node, [lesson] + evs), msg, from, masterIP, hop, home);
  }

  // ---------- which routes are used ----------

  /** Of a dispatch, exactly the route to the home of a unicast that travels is marked. */
  lemma ForwardingMarks(self: Self, node: Node, msg: Msg, from: Source, ip: AddrMaster)
    requires NotItsOwnLesson(msg, from) && ip in node.iprt
    ensures var node' := DispatchNode(self, node, msg, from);
            var d := DstMoteID(msg);
            && node'.iprt.Keys == node.iprt.Keys
            && (node'.iprt[ip].used <==>
                  node.iprt[ip].used || (Travels(self, msg, from) && d in node.mrt && node.mrt[d].masterIP == ip))
  {
  }

  /** So the route that an arriving packet is forwarded by outlives the next ageing. */
  lemma ForwardedRouteSurvives(self: Self, node: Node, msg: Msg, from: Source, hop: AddrMote, home: AddrMaster,
                               routes: seq<(AddrMaster, AddrMaster)>)
    requires Travels(self, msg, from) && NotItsOwnLesson(msg, from) && Entered(node, DstMoteID(msg), hop, home)
    requires home in node.iprt
    ensures home in Run(self, node, [Packet(msg, from), RefreshIprt(routes)]).iprt
  {
    var n1 := Step(self, node, Packet(msg, from));
    ForwardingMarks(self, node, msg, from, home);
    IprtSurvives(self, n1, routes, home);
    assert [Packet(msg, from), RefreshIprt(routes)][1..] == [RefreshIprt(routes)] && [RefreshIprt(routes)][1..] == [];
    assert Run(self, n1, [RefreshIprt(routes)]) == Step(self, n1, RefreshIprt(routes));
  }

  // ---------- the ways between masters ----------

  /** The last route listed for ip, if there is one. */
  function LastRoute(routes: seq<(AddrMaster, AddrMaster)>, ip: AddrMaster): (r: Option<AddrMaster>) {
    if routes == [] then None
    else if routes[|routes| - 1].0 == ip then Some(routes[|routes| - 1].1)
    else LastRoute(routes[..|routes| - 1], ip)
  }

  lemma {:induction false} UpdatesSnoc(t: Iprt, routes: seq<(AddrMaster, AddrMaster)>, r: (AddrMaster, AddrMaster))
    ensures IprtUpdates(t, routes + [r]) == IprtUpdate(IprtUpdates(t, routes), r.0, r.1)
    decreases |routes|
  {
    if routes == [] {
      assert routes + [r] == [r] && [r][1..] == [];
    } else {
      assert (routes + [r])[0] == routes[0] && (routes + [r])[1..] == routes[1..] + [r];
      UpdatesSnoc(IprtUpdate(t, routes[0].0, routes[0].1), routes[1..], r);
    }
  }

  lemma {:induction false} LastRouteWins(t: Iprt, routes: seq<(AddrMaster, AddrMaster)>, ip: AddrMaster)
    ensures NextHop(IprtUpdates(t, routes), ip)
         == if LastRoute(routes, ip).Some? then LastRoute(routes, ip).value else NextHop(t, ip)
    decreases |routes|
  {
    if routes != [] {
      var front, last := routes[..|routes| - 1], routes[|routes| - 1];
      assert routes == front + [last];
      LastRouteWins(t, front, ip);
      UpdatesSnoc(t, front, last);
    }
  }

  /** After a refresh the next hop to a master is the last one the kernel lists, or else the
      one before, if it was used since the refresh before. */
  lemma RefreshedRoute(self: Self, node: Node, routes: seq<(AddrMaster, AddrMaster)>, ip: AddrMaster)
    ensures NextHop(Step(self, node, RefreshIprt(routes)).iprt, ip)
         == if LastRoute(routes, ip).Some? then LastRoute(routes, ip).value
            else if ip in node.iprt && node.iprt[ip].used then node.iprt[ip].nextHopIP
            else 0
  {
    LastRouteWins(Aged(node.iprt), routes, ip);
  }

  /** Other events leave every next hop alone, except that a datagram from a master without
      one makes that master its own. */
  lemma NeighborsAreDirect(self: Self, node: Node, ev: Event, ip: AddrMaster)
    requires !ev.RefreshIprt?
    ensures NextHop(Step(self, node, ev).iprt, ip)
         == if ev.Datagram? && ev.fromIP == ip && ip != self.ip && NextHop(node.iprt, ip) == 0 then ip
            else NextHop(node.iprt, ip)
  {
  }
}
