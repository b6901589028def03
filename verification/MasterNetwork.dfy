/** Any number of masters, each with tables that may change to anything at any time, joined
    by a network that may lose datagrams and deliver them in any order, but does not
    duplicate them.  How often does one packet travel between masters? */
module MasterNetwork {

  import opened RoutingTables
  import opened MasterRouter

  // ---------- what one dispatch sends to masters ----------

  /** The transmissions to other masters among outs. */
  function MasterOuts(outs: seq<Out>): (r: seq<Out>)
    ensures forall o :: o in r ==> o in outs && (o.ToMaster? || o.ToAllMasters?)
    decreases |outs|
  {
    if outs == [] then []
    else (if outs[0].ToMaster? || outs[0].ToAllMasters? then [outs[0]] else []) + MasterOuts(outs[1..])
  }

  predicate IsUnicast(msg: Msg) {
    DstMoteID(msg) != BROADCAST
  }

  /** One dispatch sends at most one datagram to masters.  What it forwards is the packet
      itself, with the same kind of body, the same end-to-end addresses and, for a routing
      packet that came from outside, one less TTL; and it is to one master if the packet
      is a unicast, to all of them only if it is a broadcast of the local transport. */
  lemma DispatchSendsOne(self: Self, node: Node, msg: Msg, from: Source, masterIP: AddrMaster)
    ensures var outs := MasterOuts(DispatchOut(self, node, msg, from, masterIP));
            && |outs| <= 1
            && forall o :: o in outs ==> Forwards(msg, from, o)
  {
    var outs := DispatchOut(self, node, msg, from, masterIP);
    assert |outs| <= 2 && (|outs| == 2 ==> outs[0].ToMotes?);
    if outs != [] { assert MasterOuts(outs[1..]) == if |outs| == 2 then MasterOuts([outs[1]]) else []; }
  }

  ghost predicate Forwards(msg: Msg, from: Source, o: Out) {
    && (o.ToMaster? || o.ToAllMasters?)
    && (o.ToMaster? <==> IsUnicast(msg)) && DstMoteID(msg) != ANY_MASTER
    && (o.ToAllMasters? ==> from.FromTransport?)
    && (msg.body.Routing? <==> o.msg.body.Routing?)
    && DstMoteID(o.msg) == DstMoteID(msg) && SrcMoteID(o.msg) == SrcMoteID(msg)
    && (msg.body.Routing? ==>
          if from.FromTransport? then o.msg.body.ttl == msg.body.ttl
          else msg.body.ttl > 0 && o.msg.body.ttl == msg.body.ttl - 1)
  }

  // ---------- the system ----------

  /** A datagram in flight; packet says which injected packet it carries. */
  datatype Flight = Flight(packet: nat, src: AddrMaster, dst: AddrMaster, masterIP: AddrMaster, msg: Msg)

  /** sends[p] counts the transmissions between masters that packet p has caused, a
      broadcast being one transmission; origin[p] is how it entered. */
  datatype Origin = Origin(msg: Msg, from: Source)

  type Flights = map<nat, Flight>

  datatype System = System(selves: map<AddrMaster, Self>, nodes: map<AddrMaster, Node>,
                           flying: Flights, origin: seq<Origin>, sends: seq<nat>, nextKey: nat)

  /** A step, with the choices made in it.  mote says whether the packet comes from an attached
      mote or from the local transport; heard lists the masters in range of a broadcast. */
  datatype Action = Inject(at: AddrMaster, msg: Msg, mote: bool, heard: seq<AddrMaster>)
                  | Deliver(key: nat)
                  | Lose(key: nat)
                  | Retable(at: AddrMaster, node: Node)

  predicate Enabled(s: System, act: Action) {
    match act
    case Inject(at, _, mote, _) => at in s.nodes && at in s.selves && (mote ==> s.selves[at].hasSF)
    case Deliver(key) => key in s.flying && s.flying[key].dst in s.nodes && s.flying[key].dst in s.selves
    case Lose(key) => key in s.flying
    case Retable(at, _) => at in s.nodes
  }

  /** Copies of a broadcast, one for each master that hears it, under fresh keys. */
  function Copies(key: nat, packet: nat, at: AddrMaster, masterIP: AddrMaster, msg: Msg, heard: seq<AddrMaster>)
    : (m: Flights)
    ensures forall k :: k in m ==> key <= k < key + |heard| && m[k].packet == packet && m[k].msg == msg
    decreases |heard|
  {
    if heard == [] then map[]
    else Copies(key + 1, packet, at, masterIP, msg, heard[1..])[key := Flight(packet, at, heard[0], masterIP, msg)]
  }

  /** The datagrams that one transmission puts on the network. */
  function Launched(key: nat, packet: nat, at: AddrMaster, o: Out, heard: seq<AddrMaster>): (m: Flights)
    ensures forall k :: k in m ==> key <= k < key + Keys(o, heard) && m[k].packet == packet && m[k].msg == o.msg
  {
    match o
    case ToMaster(ip, msg, masterIP) => map[key := Flight(packet, at, ip, masterIP, msg)]
    case ToAllMasters(msg, masterIP) => Copies(key, packet, at, masterIP, msg, heard)
    case _ => map[]
  }

  function Keys(o: Out, heard: seq<AddrMaster>): (n: nat) {
    if o.ToMaster? then 1 else if o.ToAllMasters? then |heard| else 0
  }

  /** Put one transmission for this packet on the network. */
  function Transmitted(s: System, at: AddrMaster, packet: nat, o: Out, heard: seq<AddrMaster>): (s': System)
    requires packet < |s.sends|
  {
    if o.ToMaster? || o.ToAllMasters? then
      s.(sends := s.sends[packet := s.sends[packet] + 1],
         flying := s.flying + Launched(s.nextKey, packet, at, o, heard), nextKey := s.nextKey + Keys(o, heard))
    else s
  }

  /** What a dispatch at one master sends to masters is at most one transmission. */
  function Transmit(s: System, at: AddrMaster, packet: nat, outs: seq<Out>, heard: seq<AddrMaster>): (s': System)
    requires packet < |s.sends|
    decreases |outs|
  {
    if outs == [] then s else Transmit(Transmitted(s, at, packet, outs[0], heard), at, packet, outs[1..], heard)
  }

  lemma TransmitOne(s: System, at: AddrMaster, packet: nat, outs: seq<Out>, heard: seq<AddrMaster>)
    requires packet < |s.sends| && |outs| <= 1
    ensures Transmit(s, at, packet, outs, heard) == if outs == [] then s else Transmitted(s, at, packet, outs[0], heard)
  {
  }

  function Entry(mote: bool): (r: Source) {
    if mote then FromMote else FromTransport
  }

  function Do(s: System, act: Action): (s': System)
    requires WellFormed(s) && Enabled(s, act)
  {
    match act
    case Inject(at, msg, mote, heard) =>
      var from := Entry(mote);
      var self := s.selves[at];
      var s1 := s.(nodes := s.nodes[at := DispatchNode(self, s.nodes[at], msg, from)],
                   origin := s.origin + [Origin(msg, from)], sends := s.sends + [0]);
      Transmit(s1, at, |s.sends|, MasterOuts(DispatchOut(self, s.nodes[at], msg, from, self.ip)), heard)
    case Deliver(key) =>
      var f := s.flying[key];
      var self := s.selves[f.dst];
      var landed := s.(flying := s.flying - {key});
      if f.src == self.ip then landed
      else
        var node := Heard(self, s.nodes[f.dst], f.msg, f.masterIP, f.src);
        var s1 := landed.(nodes := s.nodes[f.dst := DispatchNode(self, node, f.msg, FromNeighbor(f.src))]);
        Transmit(s1, f.dst, f.packet, MasterOuts(DispatchOut(self, node, f.msg, FromNeighbor(f.src), f.masterIP)), [])
    case Lose(key) => s.(flying := s.flying - {key})
    case Retable(at, node) => s.(nodes := s.nodes[at := node])
  }

  ghost predicate WellFormed(s: System) {
    |s.sends| == |s.origin| && Fit(s.flying, s.nextKey, |s.sends|)
  }

  /** Keys below nextKey and packets below packets. */
  ghost predicate Fit(flying: Flights, nextKey: nat, packets: nat) {
    forall k :: k in flying ==> k < nextKey && flying[k].packet < packets
  }

  function Start(selves: map<AddrMaster, Self>, nodes: map<AddrMaster, Node>): (s: System) {
    System(selves, nodes, map[], [], [], 0)
  }

  ghost predicate CanRun(s: System, acts: seq<Action>)
    decreases |acts|
  {
    WellFormed(s) && (acts != [] ==> Enabled(s, acts[0]) && CanRun(Do(s, acts[0]), acts[1..]))
  }

  ghost function RunAll(s: System, acts: seq<Action>): (s': System)
    requires CanRun(s, acts)
    decreases |acts|
  {
    if acts == [] then s else RunAll(Do(s, acts[0]), acts[1..])
  }

  // ---------- the forwarding budget ----------

  /** Packets that something stops: a TTL, or an address that no master forwards. */
  predicate Contained(msg: Msg) {
    msg.body.Routing? || !IsUnicast(msg) || DstMoteID(msg) == ANY_MASTER
  }

  /** How often a packet that entered like this may travel between masters. */
  function Budget(o: Origin): (n: nat)
    requires Contained(o.msg)
    ensures n <= 0x100
  {
    if !IsUnicast(o.msg) then if o.from.FromTransport? then 1 else 0
    else if DstMoteID(o.msg) == ANY_MASTER then 0
    else if o.from.FromTransport? then o.msg.body.ttl + 1
    else o.msg.body.ttl
  }

  /** What is left of the TTL, for a packet that has one. */
  function Left(msg: Msg): (n: nat) {
    if msg.body.Routing? && IsUnicast(msg) then msg.body.ttl else 0
  }

  /** A packet that entered like o, was sent this often, and is now in flight as msg, still
      has the rest of its budget ahead of it. */
  predicate Within(o: Origin, sends: nat, msg: Msg) {
    && DstMoteID(msg) == DstMoteID(o.msg) && (msg.body.Routing? <==> o.msg.body.Routing?)
    && (Contained(o.msg) ==> sends + Left(msg) <= Budget(o))
  }

  predicate FlightOk(f: Flight, origin: seq<Origin>, sends: seq<nat>) {
    f.packet < |origin| == |sends| && Within(origin[f.packet], sends[f.packet], f.msg)
  }

  ghost predicate FlightsOk(flying: Flights, origin: seq<Origin>, sends: seq<nat>) {
    forall k {:trigger flying[k]} :: k in flying ==> FlightOk(flying[k], origin, sends)
  }

  ghost predicate SendsOk(origin: seq<Origin>, sends: seq<nat>) {
    && |origin| == |sends|
    && forall p :: 0 <= p < |sends| && Contained(origin[p].msg) ==> sends[p] <= Budget(origin[p])
  }

  /** A unicast is in flight at most once. */
  ghost predicate OnceEach(flying: Flights) {
    forall k, k' ::
      k in flying && k' in flying && flying[k].packet == flying[k'].packet && IsUnicast(flying[k].msg) ==> k == k'
  }

  ghost predicate NotFlying(flying: Flights, p: nat) {
    forall k :: k in flying ==> flying[k].packet != p
  }

  /** The budget is kept, and a unicast is in flight at most once. */
  ghost predicate Inv(s: System) {
    WellFormed(s) && SendsOk(s.origin, s.sends) && FlightsOk(s.flying, s.origin, s.sends) && OnceEach(s.flying)
  }

  /** What must be left of the budget when a master is given the packet. */
  predicate MaySend(o: Origin, sends: nat, msg: Msg, from: Source) {
    && DstMoteID(msg) == DstMoteID(o.msg) && (msg.body.Routing? <==> o.msg.body.Routing?)
    && (Contained(msg) && DstMoteID(msg) != ANY_MASTER ==>
          if !IsUnicast(msg) then from.FromTransport? ==> sends < Budget(o)
          else sends + Left(msg) + (if from.FromTransport? then 1 else 0) <= Budget(o))
  }

  lemma OneSend(o: Origin, sends: nat, msg: Msg, from: Source, out: Out)
    requires MaySend(o, sends, msg, from) && Forwards(msg, from, out)
    ensures Within(o, sends + 1, out.msg) && (Contained(o.msg) ==> sends + 1 <= Budget(o))
    ensures IsUnicast(out.msg) <==> out.ToMaster?
  {
  }

  lemma CountKeeps(flying: Flights, origin: seq<Origin>, sends: seq<nat>, p: nat)
    requires FlightsOk(flying, origin, sends) && SendsOk(origin, sends) && NotFlying(flying, p) && p < |sends|
    requires Contained(origin[p].msg) ==> sends[p] + 1 <= Budget(origin[p])
    ensures var sends' := sends[p := sends[p] + 1];
            FlightsOk(flying, origin, sends') && SendsOk(origin, sends')
  {
  }

  lemma LaunchedOk(key: nat, p: nat, at: AddrMaster, o: Out, heard: seq<AddrMaster>,
                   origin: seq<Origin>, sends: seq<nat>)
    requires p < |origin| == |sends| && (o.ToMaster? || o.ToAllMasters?) && Within(origin[p], sends[p], o.msg)
    requires o.ToAllMasters? ==> !IsUnicast(o.msg)
    ensures var more := Launched(key, p, at, o, heard);
            FlightsOk(more, origin, sends) && OnceEach(more)
  {
  }

  lemma AddKeeps(flying: Flights, more: Flights, origin: seq<Origin>, sends: seq<nat>)
    requires FlightsOk(flying, origin, sends) && FlightsOk(more, origin, sends)
    ensures FlightsOk(flying + more, origin, sends)
  {
    var all := flying + more;
    forall k | k in all ensures FlightOk(all[k], origin, sends) {
      assert all[k] == if k in more then more[k] else flying[k];
    }
  }

  lemma AddFits(flying: Flights, nextKey: nat, packets: nat, p: nat, at: AddrMaster, o: Out, heard: seq<AddrMaster>)
    requires Fit(flying, nextKey, packets) && p < packets
    ensures Fit(flying + Launched(nextKey, p, at, o, heard), nextKey + Keys(o, heard), packets)
  {
  }

  lemma AddOnce(flying: Flights, more: Flights, p: nat)
    requires OnceEach(flying) && OnceEach(more) && NotFlying(flying, p)
    requires forall k :: k in more ==> more[k].packet == p
    ensures OnceEach(flying + more)
  {
  }

  lemma LaunchKeeps(flying: Flights, origin: seq<Origin>, sends: seq<nat>, nextKey: nat,
                    p: nat, at: AddrMaster, o: Out, heard: seq<AddrMaster>)
    requires FlightsOk(flying, origin, sends) && OnceEach(flying) && NotFlying(flying, p)
    requires p < |origin| == |sends| && (o.ToMaster? || o.ToAllMasters?) && Within(origin[p], sends[p], o.msg)
    requires o.ToAllMasters? ==> !IsUnicast(o.msg)
    ensures var all := flying + Launched(nextKey, p, at, o, heard);
            FlightsOk(all, origin, sends) && OnceEach(all)
  {
    var more := Launched(nextKey, p, at, o, heard);
    LaunchedOk(nextKey, p, at, o, heard, origin, sends);
    AddKeeps(flying, more, origin, sends);
    AddOnce(flying, more, p);
  }

  lemma TransmittedKeeps(s: System, at: AddrMaster, p: nat, o: Out, heard: seq<AddrMaster>)
    requires Inv(s) && p < |s.sends| && NotFlying(s.flying, p) && (o.ToMaster? || o.ToAllMasters?)
    requires Within(s.origin[p], s.sends[p] + 1, o.msg) && (o.ToAllMasters? ==> !IsUnicast(o.msg))
    requires Contained(s.origin[p].msg) ==> s.sends[p] + 1 <= Budget(s.origin[p])
    ensures Inv(Transmitted(s, at, p, o, heard))
  {
    var sends := s.sends[p := s.sends[p] + 1];
    CountKeeps(s.flying, s.origin, s.sends, p);
    LaunchKeeps(s.flying, s.origin, sends, s.nextKey, p, at, o, heard);
    AddFits(s.flying, s.nextKey, |sends|, p, at, o, heard);
  }

  lemma TransmitKeeps(s: System, at: AddrMaster, p: nat, outs: seq<Out>, heard: seq<AddrMaster>, msg: Msg, from: Source)
    requires Inv(s) && p < |s.sends| && MaySend(s.origin[p], s.sends[p], msg, from)
    requires IsUnicast(msg) || from.FromTransport? ==> NotFlying(s.flying, p)
    requires |outs| <= 1 && (forall o :: o in outs ==> Forwards(msg, from, o))
    ensures Inv(Transmit(s, at, p, outs, heard))
  {
    TransmitOne(s, at, p, outs, heard);
    if outs != [] {
      OneSend(s.origin[p], s.sends[p], msg, from, outs[0]);
      TransmittedKeeps(s, at, p, outs[0], heard);
    }
  }

  lemma EnterKeeps(s: System, nodes: map<AddrMaster, Node>, o: Origin)
    requires Inv(s)
    ensures Inv(s.(nodes := nodes, origin := s.origin + [o], sends := s.sends + [0])) && NotFlying(s.flying, |s.sends|)
  {
    forall k | k in s.flying ensures FlightOk(s.flying[k], s.origin + [o], s.sends + [0]) {
      assert FlightOk(s.flying[k], s.origin, s.sends);
    }
  }

  lemma InjectKeeps(s: System, act: Action)
    requires Inv(s) && Enabled(s, act) && act.Inject?
    ensures Inv(Do(s, act))
  {
    var self, node := s.selves[act.at], s.nodes[act.at];
    var from := Entry(act.mote);
    var nodes := s.nodes[act.at := DispatchNode(self, node, act.msg, from)];
    DispatchSendsOne(self, node, act.msg, from, self.ip);
    EnterKeeps(s, nodes, Origin(act.msg, from));
    TransmitKeeps(s.(nodes := nodes, origin := s.origin + [Origin(act.msg, from)], sends := s.sends + [0]),
                  act.at, |s.sends|, MasterOuts(DispatchOut(self, node, act.msg, from, self.ip)), act.heard,
                  act.msg, from);
  }

  lemma RemoveKeeps(s: System, key: nat)
    requires Inv(s) && key in s.flying
    ensures Inv(s.(flying := s.flying - {key}))
    ensures IsUnicast(s.flying[key].msg) ==> NotFlying(s.flying - {key}, s.flying[key].packet)
  {
  }

  lemma DeliverKeeps(s: System, key: nat)
    requires Inv(s) && Enabled(s, Deliver(key))
    ensures Inv(Do(s, Deliver(key)))
  {
    var f := s.flying[key];
    var self, from := s.selves[f.dst], FromNeighbor(f.src);
    RemoveKeeps(s, key);
    assert FlightOk(f, s.origin, s.sends);
    if f.src != self.ip {
      var node := Heard(self, s.nodes[f.dst], f.msg, f.masterIP, f.src);
      var nodes := s.nodes[f.dst := DispatchNode(self, node, f.msg, from)];
      DispatchSendsOne(self, node, f.msg, from, f.masterIP);
      TransmitKeeps(s.(flying := s.flying - {key}, nodes := nodes), f.dst, f.packet,
                    MasterOuts(DispatchOut(self, node, f.msg, from, f.masterIP)), [], f.msg, from);
    }
  }

  lemma DoKeeps(s: System, act: Action)
    requires Inv(s) && Enabled(s, act)
    ensures Inv(Do(s, act))
  {
    match act
    case Inject(_, _, _, _) => InjectKeeps(s, act);
    case Deliver(key) => DeliverKeeps(s, key);
    case Lose(key) => RemoveKeeps(s, key);
    case Retable(_, _) =>
  }

  /** Whatever the masters' tables hold and become, every packet that something stops stays
      within its budget: a routing packet is sent between masters at most as often as its
      TTL says when a mote sent it, and once more when the local transport did; a broadcast
      once, or never when it came from a mote; and a packet for any master never. */
  lemma {:induction false} SendsWithinBudget(s: System, acts: seq<Action>)
    requires Inv(s) && CanRun(s, acts)
    ensures Inv(RunAll(s, acts))
    decreases |acts|
  {
    if acts != [] {
      DoKeeps(s, acts[0]);
      SendsWithinBudget(Do(s, acts[0]), acts[1..]);
    }
  }

  lemma EveryRunWithinBudget(selves: map<AddrMaster, Self>, nodes: map<AddrMaster, Node>, acts: seq<Action>, p: nat)
    requires CanRun(Start(selves, nodes), acts)
    ensures var s := RunAll(Start(selves, nodes), acts);
            && |s.origin| == |s.sends|
            && (p < |s.sends| && Contained(s.origin[p].msg) ==> s.sends[p] <= Budget(s.origin[p]))
  {
    SendsWithinBudget(Start(selves, nodes), acts);
  }

  /** A broadcast received from a neighbour is not sent to any master. */
  lemma BroadcastsStop(self: Self, node: Node, msg: Msg, neighborIP: AddrMaster, masterIP: AddrMaster)
    requires !IsUnicast(msg)
    ensures MasterOuts(DispatchOut(self, node, msg, FromNeighbor(neighborIP), masterIP)) == []
  {
    DispatchSendsOne(self, node, msg, FromNeighbor(neighborIP), masterIP);
    var outs := MasterOuts(DispatchOut(self, node, msg, FromNeighbor(neighborIP), masterIP));
    assert outs != [] ==> Forwards(msg, FromNeighbor(neighborIP), outs[0]);
  }

  // ---------- packets that never leave the master they enter at ----------

  /** What a mote sends to the serial port or, without a TTL, to itself. */
  predicate StaysIn(o: Origin) {
    var src, dst := SrcMoteID(o.msg), DstMoteID(o.msg);
    o.from.FromMote? && (dst == UART || (!o.msg.body.Routing? && src != 0 && src == dst))
  }

  lemma StaysInAtOnce(self: Self, node: Node, msg: Msg, masterIP: AddrMaster)
    requires StaysIn(Origin(msg, FromMote)) && self.ip != 0
    ensures MasterOuts(DispatchOut(self, node, msg, FromMote, masterIP)) == []
  {
    DispatchSendsOne(self, node, msg, FromMote, masterIP);
  }

  /** Every master is found under its own address, and no two have one local id. */
  ghost predicate Named(selves: map<AddrMaster, Self>) {
    && (forall x :: x in selves ==> x != 0 && selves[x].ip == x)
    && (forall x, y :: x in selves && y in selves && selves[x].local == selves[y].local ==> x == y)
  }

  /** Such packets have not been sent, and none is in flight. */
  ghost predicate Held(s: System) {
    && WellFormed(s) && Named(s.selves)
    && (forall p :: 0 <= p < |s.sends| && StaysIn(s.origin[p]) ==> s.sends[p] == 0)
    && NoneFlying(s.flying, s.origin)
  }

  ghost predicate NoneFlying(flying: Flights, origin: seq<Origin>) {
    forall k :: k in flying ==> flying[k].packet < |origin| && !StaysIn(origin[flying[k].packet])
  }

  lemma TransmitHolds(s: System, at: AddrMaster, p: nat, outs: seq<Out>, heard: seq<AddrMaster>)
    requires Held(s) && p < |s.sends| && |outs| <= 1 && (outs != [] ==> !StaysIn(s.origin[p]))
    ensures Held(Transmit(s, at, p, outs, heard))
  {
    TransmitOne(s, at, p, outs, heard);
    if outs != [] { AddFits(s.flying, s.nextKey, |s.sends|, p, at, outs[0], heard); }
  }

  lemma DoHolds(s: System, act: Action)
    requires Held(s) && Enabled(s, act)
    ensures Held(Do(s, act))
  {
    match act
    case Inject(at, msg, mote, heard) =>
      var self, node, from := s.selves[at], s.nodes[at], Entry(mote);
      DispatchSendsOne(self, node, msg, from, self.ip);
      if StaysIn(Origin(msg, from)) { StaysInAtOnce(self, node, msg, self.ip); }
      TransmitHolds(s.(nodes := s.nodes[at := DispatchNode(self, node, msg, from)],
                       origin := s.origin + [Origin(msg, from)], sends := s.sends + [0]),
                    at, |s.sends|, MasterOuts(DispatchOut(self, node, msg, from, self.ip)), heard);
    case Deliver(key) =>
      var f := s.flying[key];
      var self, from := s.selves[f.dst], FromNeighbor(f.src);
      var node := Heard(self, s.nodes[f.dst], f.msg, f.masterIP, f.src);
      var nodes := s.nodes[f.dst := DispatchNode(self, node, f.msg, from)];
      DispatchSendsOne(self, node, f.msg, from, f.masterIP);
      TransmitHolds(s.(flying := s.flying - {key}, nodes := nodes), f.dst, f.packet,
                    MasterOuts(DispatchOut(self, node, f.msg, from, f.masterIP)), []);
    case _ =>
  }

  lemma {:induction false} RunHolds(s: System, acts: seq<Action>)
    requires Held(s) && CanRun(s, acts)
    ensures Held(RunAll(s, acts))
    decreases |acts|
  {
    if acts != [] {
      DoHolds(s, acts[0]);
      RunHolds(Do(s, acts[0]), acts[1..]);
    }
  }

  // ---------- the network falls quiet ----------

  /** How many more deliveries f can lead to, itself included. */
  function Weight(f: Flight): (n: nat) {
    1 + Left(f.msg)
  }

  ghost function Load(flying: Flights, keys: nat): (n: nat) {
    if keys == 0 then 0
    else Load(flying, keys - 1) + if keys - 1 in flying then Weight(flying[keys - 1]) else 0
  }

  /** Only packets that something stops are in flight. */
  ghost predicate Bounded(s: System) {
    WellFormed(s) && forall k :: k in s.flying ==> Contained(s.flying[k].msg)
  }

  lemma {:induction false} LoadRemove(flying: Flights, keys: nat, key: nat)
    requires key in flying && key < keys
    ensures Load(flying - {key}, keys) + Weight(flying[key]) == Load(flying, keys)
  {
    if key == keys - 1 { LoadElsewhere(flying, flying - {key}, keys - 1); } else { LoadRemove(flying, keys - 1, key); }
  }

  lemma {:induction false} LoadElsewhere(a: Flights, b: Flights, keys: nat)
    requires forall k: nat :: k < keys ==> (k in a <==> k in b) && (k in a ==> a[k] == b[k])
    ensures Load(a, keys) == Load(b, keys)
  {
    if keys > 0 { LoadElsewhere(a, b, keys - 1); }
  }

  /** A datagram that is taken in and sent on with less to go. */
  lemma SentOnLighter(flying: Flights, nextKey: nat, packets: nat, key: nat, f: Flight)
    requires Fit(flying, nextKey, packets) && key in flying && Weight(f) < Weight(flying[key])
    ensures Load(flying - {key} + map[nextKey := f], nextKey + 1) < Load(flying, nextKey)
  {
    LoadRemove(flying, nextKey, key);
    LoadElsewhere(flying - {key}, flying - {key} + map[nextKey := f], nextKey);
  }

  lemma ForwardIsLighter(msg: Msg, neighborIP: AddrMaster, o: Out)
    requires Contained(msg) && Forwards(msg, FromNeighbor(neighborIP), o)
    ensures o.ToMaster? && Contained(o.msg) && Left(o.msg) < Left(msg)
  {
  }

  ghost predicate Lighter(s: System, s': System, moves: nat) {
    Bounded(s') && Load(s'.flying, s'.nextKey) + moves <= Load(s.flying, s.nextKey)
  }

  /** Transmitting what f was forwarded as, after f has been taken in. */
  lemma ForwardDrops(s: System, key: nat, nodes: map<AddrMaster, Node>, outs: seq<Out>)
    requires Bounded(s) && key in s.flying && |outs| <= 1
    requires forall o :: o in outs ==> Forwards(s.flying[key].msg, FromNeighbor(s.flying[key].src), o)
    ensures var f := s.flying[key];
            Lighter(s, Transmit(s.(flying := s.flying - {key}, nodes := nodes), f.dst, f.packet, outs, []), 1)
  {
    var f := s.flying[key];
    LoadRemove(s.flying, s.nextKey, key);
    TransmitOne(s.(flying := s.flying - {key}, nodes := nodes), f.dst, f.packet, outs, []);
    if outs != [] {
      ForwardIsLighter(f.msg, f.src, outs[0]);
      SentOnLighter(s.flying, s.nextKey, |s.sends|, key,
                    Flight(f.packet, f.dst, outs[0].ip, outs[0].masterIP, outs[0].msg));
    }
  }

  lemma DeliveryDrops(s: System, key: nat)
    requires Bounded(s) && Enabled(s, Deliver(key))
    ensures Lighter(s, Do(s, Deliver(key)), 1)
  {
    var f := s.flying[key];
    var self, from := s.selves[f.dst], FromNeighbor(f.src);
    if f.src == self.ip {
      LoadRemove(s.flying, s.nextKey, key);
    } else {
      var node := Heard(self, s.nodes[f.dst], f.msg, f.masterIP, f.src);
      var outs := MasterOuts(DispatchOut(self, node, f.msg, from, f.masterIP));
      DispatchSendsOne(self, node, f.msg, from, f.masterIP);
      ForwardDrops(s, key, s.nodes[f.dst := DispatchNode(self, node, f.msg, from)], outs);
    }
  }

  /** Delivering or losing a datagram lightens the load; changing tables does not add to it. */
  lemma LoadDrops(s: System, act: Action)
    requires Bounded(s) && Enabled(s, act) && !act.Inject?
    ensures Lighter(s, Do(s, act), if act.Retable? then 0 else 1)
  {
    match act
    case Retable(_, _) =>
    case Lose(key) => LoadRemove(s.flying, s.nextKey, key);
    case Deliver(key) => DeliveryDrops(s, key);
  }

  function Moves(acts: seq<Action>): (n: nat)
    decreases |acts|
  {
    if acts == [] then 0 else (if acts[0].Deliver? || acts[0].Lose? then 1 else 0) + Moves(acts[1..])
  }

  /** Without new packets, every run delivers or loses at most Load many datagrams. */
  lemma {:induction false} FallsQuiet(s: System, acts: seq<Action>)
    requires Bounded(s) && CanRun(s, acts) && forall i :: 0 <= i < |acts| ==> !acts[i].Inject?
    ensures Moves(acts) <= Load(s.flying, s.nextKey)
    decreases |acts|
  {
    if acts != [] {
      LoadDrops(s, acts[0]);
      FallsQuiet(Do(s, acts[0]), acts[1..]);
    }
  }

  // ---------- without a TTL ----------

  /** The node sends whatever is for mote d to the master at ip, as the next hop towards the
      master at home. */
  ghost predicate PointsTo(node: Node, d: AddrMote, home: AddrMaster, ip: AddrMaster) {
    d in node.mrt && node.mrt[d].masterIP == home && NextHop(node.iprt, home) == ip
  }

  ghost predicate IsMaster(s: System, x: AddrMaster, d: AddrMote) {
    x != 0 && x in s.selves && s.selves[x].ip == x && s.selves[x].local != d && x in s.nodes
  }

  /** A packet without a TTL, for mote d, is on its way to x.  x and y each think that the
      way to the packet's home master leads through the other. */
  ghost predicate Bouncing(s: System, key: nat, x: AddrMaster, y: AddrMaster, home: AddrMaster, d: AddrMote) {
    && WellFormed(s) && x != y && home != x && home != y && d != BROADCAST && d != ANY_MASTER
    && IsMaster(s, x, d) && PointsTo(s.nodes[x], d, home, y)
    && IsMaster(s, y, d) && PointsTo(s.nodes[y], d, home, x)
    && key in s.flying && s.flying[key].src != x && s.flying[key].dst == x && s.flying[key].masterIP == home
    && !s.flying[key].msg.body.Routing? && s.flying[key].msg.addr == d
  }

  predicate Deliveries(acts: seq<Action>, n: nat) {
    |acts| == n && forall i :: 0 <= i < n ==> acts[i].Deliver?
  }

  lemma DeliveriesCons(key: nat, rest: seq<Action>, n: nat)
    requires Deliveries(rest, n)
    ensures Deliveries([Deliver(key)] + rest, n + 1)
  {
  }

  /** Packet p has been sent n more times, and nothing has entered. */
  predicate SentOn(s: System, s': System, p: nat, n: nat) {
    p < |s.sends| && s'.sends == s.sends[p := s.sends[p] + n] && s'.origin == s.origin
  }

  lemma SentOnOnceMore(s: System, s1: System, s2: System, p: nat, n: nat)
    requires SentOn(s, s1, p, 1) && SentOn(s1, s2, p, n)
    ensures SentOn(s, s2, p, n + 1)
  {
  }

  lemma Bounce(s: System, key: nat, x: AddrMaster, y: AddrMaster, home: AddrMaster, d: AddrMote)
    requires Bouncing(s, key, x, y, home, d)
    ensures Enabled(s, Deliver(key))
    ensures var s' := Do(s, Deliver(key)); var p := s.flying[key].packet;
            Bouncing(s', s.nextKey, y, x, home, d) && s'.flying[s.nextKey].packet == p && SentOn(s, s', p, 1)
  {
    var f, self := s.flying[key], s.selves[x];
    var node := Heard(self, s.nodes[x], f.msg, f.masterIP, f.src);
    assert PointsTo(node, d, home, y);
    var out := ToMaster(y, f.msg, home);
    assert DispatchOut(self, node, f.msg, FromNeighbor(f.src), home) == [out];
    assert MasterOuts([out]) == [out];
    var s1 := s.(flying := s.flying - {key},
                 nodes := s.nodes[x := DispatchNode(self, node, f.msg, FromNeighbor(f.src))]);
    TransmitOne(s1, x, f.packet, [out], []);
  }

  lemma RunCons(s: System, act: Action, rest: seq<Action>)
    requires WellFormed(s) && Enabled(s, act) && CanRun(Do(s, act), rest)
    ensures CanRun(s, [act] + rest) && RunAll(s, [act] + rest) == RunAll(Do(s, act), rest)
  {
    assert ([act] + rest)[1..] == rest;
  }

  lemma {:induction false} BouncesOn(s: System, key: nat, x: AddrMaster, y: AddrMaster, home: AddrMaster, d: AddrMote,
                                     n: nat)
    returns (acts: seq<Action>)
    requires Bouncing(s, key, x, y, home, d)
    ensures Deliveries(acts, n) && CanRun(s, acts) && SentOn(s, RunAll(s, acts), s.flying[key].packet, n)
    decreases n
  {
    if n == 0 {
      acts := [];
    } else {
      Bounce(s, key, x, y, home, d);
      var s' := Do(s, Deliver(key));
      var rest := BouncesOn(s', s.nextKey, y, x, home, d, n - 1);
      acts := [Deliver(key)] + rest;
      DeliveriesCons(key, rest, n - 1);
      RunCons(s, Deliver(key), rest);
      SentOnOnceMore(s, s', RunAll(s', rest), s.flying[key].packet, n - 1);
    }
  }

  /** Three masters: the third sends what is for mote d to the first, and the first two
      each take the other for the way back to the third. */
  function Selves(d: AddrMote): (r: map<AddrMaster, Self>) {
    var base := if 100 < d <= 103 then 200 else 100;
    map[1 := Self(1, base + 1, false), 2 := Self(2, base + 2, false), 3 := Self(3, base + 3, true)]
  }

  function Node3(d: AddrMote, home: AddrMaster, hop: AddrMaster): (r: Node) {
    Node(map[d := MrtEntry(d, 0, home, true)], if hop == 0 then map[] else map[home := IprtEntry(home, hop, true)])
  }

  function Nodes(d: AddrMote): (r: map<AddrMaster, Node>) {
    map[1 := Node3(d, 3, 2), 2 := Node3(d, 3, 1), 3 := Node3(d, 1, 0)]
  }

  lemma FirstHop(msg: Msg, mote: bool)
    requires !Contained(msg) && !StaysIn(Origin(msg, Entry(mote)))
    ensures var d := msg.addr;
            MasterOuts(DispatchOut(Selves(d)[3], Nodes(d)[3], msg, Entry(mote), 3)) == [ToMaster(1, msg, 3)]
  {
    var d := msg.addr;
    assert DispatchOut(Selves(d)[3], Nodes(d)[3], msg, Entry(mote), 3) == [ToMaster(1, msg, 3)];
    assert MasterOuts([ToMaster(1, msg, 3)]) == [ToMaster(1, msg, 3)];
  }

  lemma FirstFlightBounces(nodes: map<AddrMaster, Node>, o: Origin)
    requires !Contained(o.msg) && 1 in nodes && 2 in nodes
    requires nodes[1] == Nodes(o.msg.addr)[1] && nodes[2] == Nodes(o.msg.addr)[2]
    ensures var d := o.msg.addr;
            Bouncing(System(Selves(d), nodes, map[0 := Flight(0, 3, 1, 3, o.msg)], [o], [1], 1), 0, 1, 2, 3, d)
  {
  }

  lemma InjectBounces(msg: Msg, mote: bool)
    requires !Contained(msg) && !StaysIn(Origin(msg, Entry(mote)))
    ensures var s := Start(Selves(msg.addr), Nodes(msg.addr));
            && WellFormed(s) && Named(s.selves) && Enabled(s, Inject(3, msg, mote, []))
            && var s1 := Do(s, Inject(3, msg, mote, []));
               && Bouncing(s1, 0, 1, 2, 3, msg.addr) && s1.flying[0].packet == 0
               && s1.sends == [1] && s1.origin == [Origin(msg, Entry(mote))]
  {
    var d, o := msg.addr, Origin(msg, Entry(mote));
    var nodes := Nodes(d)[3 := DispatchNode(Selves(d)[3], Nodes(d)[3], msg, o.from)];
    FirstHop(msg, mote);
    TransmitOne(System(Selves(d), nodes, map[], [] + [o], [] + [0], 0), 3, 0, [ToMaster(1, msg, 3)], []);
    FirstFlightBounces(nodes, o);
    assert map[] + map[0 := Flight(0, 3, 1, 3, msg)] == map[0 := Flight(0, 3, 1, 3, msg)];
  }

  /** A run among properly named masters in which the packet that entered p-th entered like o
      and has been sent n times. */
  ghost predicate Sent(o: Origin, selves: map<AddrMaster, Self>, nodes: map<AddrMaster, Node>, acts: seq<Action>,
                       p: nat, n: nat) {
    && Named(selves) && CanRun(Start(selves, nodes), acts)
    && var s := RunAll(Start(selves, nodes), acts);
       |s.origin| == |s.sends| && p < |s.sends| && s.origin[p] == o && s.sends[p] == n
  }

  /** Any packet that nothing stops can be passed to and fro as often as one likes. */
  lemma NoBoundWithoutTtl(msg: Msg, mote: bool, n: nat) returns (acts: seq<Action>)
    requires !Contained(msg) && !StaysIn(Origin(msg, Entry(mote)))
    ensures Sent(Origin(msg, Entry(mote)), Selves(msg.addr), Nodes(msg.addr), acts, 0, n + 1)
  {
    var s, inject := Start(Selves(msg.addr), Nodes(msg.addr)), Inject(3, msg, mote, []);
    InjectBounces(msg, mote);
    var rest := BouncesOn(Do(s, inject), 0, 1, 2, 3, msg.addr, n);
    acts := [inject] + rest;
    RunCons(s, inject, rest);
  }

  ghost predicate NeverMoreThan(o: Origin, b: nat) {
    forall selves, nodes, acts, p: nat, n: nat :: Sent(o, selves, nodes, acts, p, n) ==> n <= b
  }

  /** Over all tables and all runs there is a bound on how often a packet that enters from a
      mote, or from the local transport, is sent between masters exactly when it is a routing
      packet, a broadcast, or for any master, or a mote sent it to the serial port or to
      itself. */
  lemma BoundedIffContained(msg: Msg, mote: bool)
    ensures var o := Origin(msg, Entry(mote));
            Contained(msg) || StaysIn(o) <==> exists b: nat :: NeverMoreThan(o, b)
  {
    var o := Origin(msg, Entry(mote));
    if Contained(msg) || StaysIn(o) {
      forall selves, nodes, acts, p: nat, n: nat | Sent(o, selves, nodes, acts, p, n) ensures n <= 0x100 {
        SendsWithinBudget(Start(selves, nodes), acts);
        RunHolds(Start(selves, nodes), acts);
      }
      assert NeverMoreThan(o, 0x100);
    } else {
      forall b: nat ensures !NeverMoreThan(o, b) {
        var acts := NoBoundWithoutTtl(msg, mote, b);
      }
    }
  }
}
