/** How long table entries live, over whole runs of one router. */
module RouterAgeing {

  import opened RoutingTables
  import opened MasterRouter

  datatype Event = Packet(msg: Msg, from: Source)
                 | Datagram(fromIP: AddrMaster, masterIP: AddrMaster, msg: Msg)
                 | RefreshMrt
                 | RefreshIprt(routes: seq<(AddrMaster, AddrMaster)>)

  /** What TenetRouter's methods and the two managers' Refresh do to the tables. */
  function Step(self: Self, node: Node, ev: Event): (node': Node) {
    match ev
    case Packet(msg, from) => DispatchNode(self, node, msg, from)
    case Datagram(fromIP, masterIP, msg) =>
      if fromIP == self.ip then node
      else DispatchNode(self, Heard(self, node, msg, masterIP, fromIP), msg, FromNeighbor(fromIP))
    case RefreshMrt => Node(Refreshed(self, node.mrt, node.iprt), AllConsulted(node.iprt, Asked(self, node.mrt)))
    case RefreshIprt(routes) => node.(iprt := IprtUpdates(Aged(node.iprt), routes))
  }

  function Run(self: Self, node: Node, evs: seq<Event>): (node': Node)
    decreases |evs|
  {
    if evs == [] then node else Run(self, Step(self, node, evs[0]), evs[1..])
  }

  // ---------- what every run keeps ----------

  ghost predicate KeysOk(self: Self, node: Node) {
    && (forall id :: id in node.mrt ==> node.mrt[id].moteID == id)
    && self.local !in node.mrt
    && (forall ip :: ip in node.iprt ==> node.iprt[ip].destIP == ip)
  }

  lemma {:induction false} RoutesKeepKeys(t: Iprt, routes: seq<(AddrMaster, AddrMaster)>)
    requires forall ip :: ip in t ==> t[ip].destIP == ip
    ensures forall ip :: ip in IprtUpdates(t, routes) ==> IprtUpdates(t, routes)[ip].destIP == ip
    decreases |routes|
  {
    if routes != [] { RoutesKeepKeys(IprtUpdate(t, routes[0].0, routes[0].1), routes[1..]); }
  }

  lemma DispatchKeepsKeys(self: Self, node: Node, msg: Msg, from: Source)
    requires KeysOk(self, node)
    ensures KeysOk(self, DispatchNode(self, node, msg, from))
  {
  }

  lemma StepKeepsKeys(self: Self, node: Node, ev: Event)
    requires KeysOk(self, node)
    ensures KeysOk(self, Step(self, node, ev))
  {
    match ev
    case Packet(msg, from) => DispatchKeepsKeys(self, node, msg, from);
    case Datagram(fromIP, masterIP, msg) =>
      assert KeysOk(self, Heard(self, node, msg, masterIP, fromIP));
      DispatchKeepsKeys(self, Heard(self, node, msg, masterIP, fromIP), msg, FromNeighbor(fromIP));
    case RefreshMrt =>
    case RefreshIprt(routes) => RoutesKeepKeys(Aged(node.iprt), routes);
  }

  /** Along every run each entry stays under its own id, and the router never lists itself. */
  lemma {:induction false} RunKeepsKeys(self: Self, node: Node, evs: seq<Event>)
    requires KeysOk(self, node)
    ensures KeysOk(self, Run(self, node, evs))
    decreases |evs|
  {
    if evs != [] {
      StepKeepsKeys(self, node, evs[0]);
      RunKeepsKeys(self, Step(self, node, evs[0]), evs[1..]);
    }
  }

  // ---------- MRT entries ----------

  predicate Admits(self: Self, msg: Msg, from: Source) {
    !OwnEcho(self, from) && Admit(self, msg, from).Admitted?
  }

  /** The event uses or updates id's MRT entry: id is the source of a packet that is not
      dropped on admission, or of a datagram from another master. */
  predicate Touches(self: Self, ev: Event, id: AddrMote) {
    match ev
    case Packet(msg, from) => Admits(self, msg, from) && SrcMoteID(msg) == id
    case Datagram(fromIP, _, msg) =>
      fromIP != self.ip && SrcMoteID(msg) == id && (id != 0 || Admit(self, msg, FromNeighbor(fromIP)).Admitted?)
    case RefreshMrt => false
    case RefreshIprt(_) => false
  }

  /** The event leaves id in the table, as used or updated by it. */
  ghost predicate Marks(self: Self, node: Node, ev: Event, id: AddrMote) {
    Touches(self, ev, id) && id in Step(self, node, ev).mrt
  }

  ghost predicate Used(node: Node, id: AddrMote) {
    id in node.mrt && node.mrt[id].used
  }

  /** No entry has left, and id is used now exactly when it was or has been touched. */
  ghost predicate Marked(node: Node, node': Node, id: AddrMote, touched: bool) {
    && (id in node.mrt ==> id in node'.mrt) && (id in node'.mrt ==> id in node.mrt || touched)
    && (Used(node', id) <==> Used(node, id) || (touched && id in node'.mrt))
  }

  lemma DispatchMarks(self: Self, node: Node, msg: Msg, from: Source, id: AddrMote)
    ensures Marked(node, DispatchNode(self, node, msg, from), id, Admits(self, msg, from) && SrcMoteID(msg) == id)
  {
  }

  lemma HeardMarks(self: Self, node: Node, msg: Msg, masterIP: AddrMaster, fromIP: AddrMaster, id: AddrMote)
    ensures Marked(node, Heard(self, node, msg, masterIP, fromIP), id, SrcMoteID(msg) == id && id != 0)
  {
  }

  /** Between two MRT refreshes an entry never leaves, and is marked used exactly when it
      was already or the event marks it. */
  lemma StepMarks(self: Self, node: Node, ev: Event, id: AddrMote)
    requires ev != RefreshMrt
    ensures id in node.mrt ==> id in Step(self, node, ev).mrt
    ensures Used(Step(self, node, ev), id) <==> Used(node, id) || Marks(self, node, ev, id)
    ensures id in Step(self, node, ev).mrt ==> id in node.mrt || Marks(self, node, ev, id)
  {
    match ev
    case Packet(msg, from) => DispatchMarks(self, node, msg, from, id);
    case Datagram(fromIP, masterIP, msg) =>
      HeardMarks(self, node, msg, masterIP, fromIP, id);
      DispatchMarks(self, Heard(self, node, msg, masterIP, fromIP), msg, FromNeighbor(fromIP), id);
    case RefreshIprt(_) =>
  }

  /** Some event of the run leaves id in the table as used or updated. */
  ghost predicate MarkedIn(self: Self, node: Node, evs: seq<Event>, id: AddrMote)
    decreases |evs|
  {
    evs != [] && (Marks(self, node, evs[0], id) || MarkedIn(self, Step(self, node, evs[0]), evs[1..], id))
  }

  lemma {:induction false} RunMarks(self: Self, node: Node, evs: seq<Event>, id: AddrMote)
    requires RefreshMrt !in evs
    ensures Used(Run(self, node, evs), id) <==> Used(node, id) || MarkedIn(self, node, evs, id)
    ensures id in Run(self, node, evs).mrt <==> id in node.mrt || MarkedIn(self, node, evs, id)
    decreases |evs|
  {
    if evs != [] {
      StepMarks(self, node, evs[0], id);
      RunMarks(self, Step(self, node, evs[0]), evs[1..], id);
    }
  }

  /** IPRT has, at this point, a next hop for the address derived from id. */
  predicate Routed(self: Self, node: Node, id: AddrMote) {
    NextHop(node.iprt, MoteIDtoIP(self, id)) != 0
  }

  lemma {:induction false} RunAppend(self: Self, node: Node, evs: seq<Event>, ev: Event)
    ensures Run(self, node, evs + [ev]) == Step(self, Run(self, node, evs), ev)
    decreases |evs|
  {
    if evs == [] {
      assert evs + [ev] == [ev];
      assert [ev][1..] == [];
      assert Run(self, Step(self, node, ev), []) == Step(self, node, ev);
    } else {
      assert (evs + [ev])[0] == evs[0] && (evs + [ev])[1..] == evs[1..] + [ev];
      RunAppend(self, Step(self, node, evs[0]), evs[1..], ev);
    }
  }

  /** An entry used or updated since the last MRT refresh survives the next one, and so
      does one that was already used at its start; nothing else does. */
  lemma SurvivesRefresh(self: Self, node: Node, evs: seq<Event>, id: AddrMote)
    requires RefreshMrt !in evs
    ensures id in Run(self, node, evs + [RefreshMrt]).mrt <==> Used(node, id) || MarkedIn(self, node, evs, id)
  {
    RunMarks(self, node, evs, id);
    RunAppend(self, node, evs, RefreshMrt);
  }

  /** Two refreshes with evs between them.  What is in the table afterwards is exactly what
      was used or updated in between, together with what was used before the first refresh
      and had, at the first refresh, a route for its derived address.  So an entry that
      goes untouched and has no route is gone. */
  lemma TwoRefreshes(self: Self, node: Node, evs: seq<Event>, id: AddrMote)
    requires KeysOk(self, node) && RefreshMrt !in evs
    ensures id in Run(self, node, [RefreshMrt] + evs + [RefreshMrt]).mrt <==>
              MarkedIn(self, Step(self, node, RefreshMrt), evs, id) || (Used(node, id) && Routed(self, node, id))
  {
    var all := [RefreshMrt] + evs + [RefreshMrt];
    assert all[0] == RefreshMrt && all[1..] == evs + [RefreshMrt];
    SurvivesRefresh(self, Step(self, node, RefreshMrt), evs, id);
  }

  // ---------- IPRT entries ----------

  /** An IPRT entry survives an IPRT refresh exactly when it was consulted or updated since
      the one before, or is in the system's route table. */
  lemma IprtSurvives(self: Self, node: Node, routes: seq<(AddrMaster, AddrMaster)>, ip: AddrMaster)
    ensures ip in Step(self, node, RefreshIprt(routes)).iprt <==>
              (ip in node.iprt && node.iprt[ip].used) || exists i :: 0 <= i < |routes| && routes[i].0 == ip
  {
    RoutesAreIn(Aged(node.iprt), routes, ip);
  }

  lemma {:induction false} RoutesAreIn(t: Iprt, routes: seq<(AddrMaster, AddrMaster)>, ip: AddrMaster)
    ensures ip in IprtUpdates(t, routes) <==> ip in t || exists i :: 0 <= i < |routes| && routes[i].0 == ip
    decreases |routes|
  {
    if routes != [] {
      var t' := IprtUpdate(t, routes[0].0, routes[0].1);
      RoutesAreIn(t', routes[1..], ip);
      if i :| 0 <= i < |routes[1..]| && routes[1..][i].0 == ip { assert routes[i + 1].0 == ip; }
      if i :| 0 <= i < |routes| && routes[i].0 == ip {
        if i > 0 { assert routes[1..][i - 1].0 == ip; }
      }
    }
  }

  /** Each survival test of an MRT refresh marks the IPRT entry it asks about, which thereby
      survives an IPRT refresh that follows. */
  lemma SurvivalTestMarks(self: Self, node: Node, id: AddrMote, routes: seq<(AddrMaster, AddrMaster)>)
    requires KeysOk(self, node) && Used(node, id) && MoteIDtoIP(self, id) in node.iprt
    ensures var n1 := Step(self, node, RefreshMrt);
            && n1.iprt[MoteIDtoIP(self, id)].used
            && MoteIDtoIP(self, id) in Step(self, n1, RefreshIprt(routes)).iprt
  {
    assert MoteIDtoIP(self, id) in Asked(self, node.mrt);
    IprtSurvives(self, Step(self, node, RefreshMrt), routes, MoteIDtoIP(self, id));
  }
}
