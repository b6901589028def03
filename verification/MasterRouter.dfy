/** A master router: what one packet makes it send, and what it does to its tables. */
module MasterRouter {

  import opened Common
  import opened RoutingTables

  const PROTOCOL_TCMP := 0x04

  /** What the data part of a packet holds, by AM type.  protocol is the protocol byte
      without its two direction bits. */
  datatype Body = Routing(src: AddrMote, dst: AddrMote, prevhop: AddrMote, ttl: Byte, protocol: Byte)
                | Trd(sender: AddrMote)
                | TrdControl(sender: AddrMote)
                | Other

  datatype Msg = Msg(addr: AddrMote, body: Body)

  datatype Source = FromMote | FromNeighbor(neighborIP: AddrMaster) | FromTransport

  /** One transmission: to the local transport, to the attached motes, to one master or to
      all masters in range. */
  datatype Out = ToTransport(msg: Msg)
               | ToMotes(msg: Msg)
               | ToMaster(ip: AddrMaster, msg: Msg, masterIP: AddrMaster)
               | ToAllMasters(msg: Msg, masterIP: AddrMaster)

  datatype Node = Node(mrt: Mrt, iprt: Iprt)

  function SrcMoteID(msg: Msg): (r: AddrMote) {
    match msg.body
    case Routing(src, _, _, _, _) => src
    case Trd(sender) => sender
    case TrdControl(sender) => sender
    case Other => 0
  }

  function DstMoteID(msg: Msg): (r: AddrMote) {
    if msg.body.Routing? then msg.body.dst else msg.addr
  }

  function NextHopMoteID(msg: Msg): (r: AddrMote) {
    match msg.body
    case Routing(_, _, prevhop, _, _) => prevhop
    case Trd(sender) => sender
    case TrdControl(sender) => sender
    case Other => 0
  }

  // ---------- forwarding, on values ----------

  /** The packet as the attached motes get it. */
  function ForMotes(self: Self, msg: Msg): (r: Msg) {
    if msg.body.Routing? then msg.(body := msg.body.(prevhop := self.local)) else msg
  }

  function UnicastOut(self: Self, node: Node, msg: Msg, masterIP: AddrMaster): (outs: seq<Out>) {
    var dst := DstMoteID(msg);
    var hop := NextHopMaster(self, node.mrt, node.iprt, dst);
    if hop == self.ip && hop != 0 then
      if self.hasSF then [ToMotes(ForMotes(self, msg.(addr := NextHopMote(self, node.mrt, node.iprt, dst))))] else []
    else if hop != 0 then [ToMaster(hop, msg, masterIP)]
    else if Loopback(self) || dst == ANY_MASTER then []
    else [ToMaster(MoteIDtoIP(self, dst), msg, masterIP)]
  }

  function UnicastNode(self: Self, node: Node, msg: Msg): (node': Node) {
    var dst := DstMoteID(msg);
    if dst in node.mrt then node.(iprt := Consulted(node.iprt, node.mrt[dst].masterIP)) else node
  }

  /** A routing packet that comes in from outside is dropped when its TTL has run out, or
      when it has come back to the master it started from. */
  datatype Admission = Admitted(msg: Msg) | Expired(msg: Msg) | Looped

  function Admit(self: Self, msg: Msg, from: Source): (r: Admission) {
    if !msg.body.Routing? || from.FromTransport? then Admitted(msg)
    else if msg.body.ttl == 0 then Expired(msg.(body := msg.body.(ttl := 255)))
    else if msg.body.src == self.local then Looped
    else Admitted(msg.(body := msg.body.(ttl := msg.body.ttl - 1)))
  }

  function OwnEcho(self: Self, from: Source): (r: bool) {
    from.FromNeighbor? && from.neighborIP == self.ip
  }

  /** Does this address mean "some master", here? */
  predicate ForMe(self: Self, dst: AddrMote, from: Source) {
    dst == self.local || dst == ANY_MASTER || (from.FromMote? && dst == UART)
  }

  function AdmittedOut(self: Self, node: Node, msg: Msg, from: Source, masterIP: AddrMaster): (outs: seq<Out>) {
    var dst := DstMoteID(msg);
    if dst == BROADCAST then
      if !from.FromTransport? then [ToTransport(msg)]
      else
        (if self.hasSF then [ToMotes(ForMotes(self, msg))] else [])
        + (if Loopback(self) then [] else [ToAllMasters(if self.hasSF then ForMotes(self, msg) else msg, masterIP)])
    else if ForMe(self, dst, from) then
      if !from.FromTransport? then [ToTransport(msg)]
      else if self.hasSF then [ToMotes(ForMotes(self, msg))] else []
    else UnicastOut(self, node, msg, masterIP)
  }

  /** The MRT as the packet leaves it: its source is marked, and a mote's source learned. */
  function Learned(self: Self, mrt: Mrt, msg: Msg, from: Source): (m: Mrt) {
    var m1 := SetUsed(mrt, SrcMoteID(msg));
    if from.FromMote? && DstMoteID(msg) != BROADCAST && SrcMoteID(msg) != 0
    then MrtUpdate(self, m1, SrcMoteID(msg), NextHopMoteID(msg), self.ip)
    else m1
  }

  function AdmittedNode(self: Self, node: Node, msg: Msg, from: Source): (node': Node) {
    var dst := DstMoteID(msg);
    var n1 := node.(mrt := Learned(self, node.mrt, msg, from));
    if dst == BROADCAST || ForMe(self, dst, from) then n1 else UnicastNode(self, n1, msg)
  }

  function DispatchOut(self: Self, node: Node, msg: Msg, from: Source, masterIP: AddrMaster): (outs: seq<Out>) {
    if OwnEcho(self, from) then []
    else match Admit(self, msg, from)
      case Expired(m) => if m.body.Routing? && m.body.protocol == PROTOCOL_TCMP then [ToTransport(m)] else []
      case Looped => []
      case Admitted(m) => AdmittedOut(self, node.(mrt := Learned(self, node.mrt, m, from)), m, from, masterIP)
  }

  function DispatchNode(self: Self, node: Node, msg: Msg, from: Source): (node': Node) {
    if OwnEcho(self, from) then node
    else match Admit(self, msg, from)
      case Expired(_) => node
      case Looped => node
      case Admitted(m) => AdmittedNode(self, node, m, from)
  }

  /** What a datagram from a neighbour teaches before it is dispatched. */
  function Heard(self: Self, node: Node, msg: Msg, masterIP: AddrMaster, fromIP: AddrMaster): (node': Node) {
    var src := SrcMoteID(msg);
    var via := if DstMoteID(msg) != BROADCAST then masterIP else MoteIDtoIP(self, src);
    var m := if src != 0 then MrtUpdate(self, node.mrt, src, src, via) else node.mrt;
    var t := Consulted(node.iprt, fromIP);
    Node(m, if NextHop(node.iprt, fromIP) == 0 then IprtUpdate(t, fromIP, fromIP) else t)
  }

  // ---------- the router ----------

  class TenetRouter {
    const self: Self
    const mrt: MrtManager
    const iprt: IprtManager
    /** Every transmission so far. */
    var sent: seq<Out>

    ghost predicate Valid() {
      mrt.self == self && mrt.iprt == iprt
    }

    ghost function State(): Node
      reads mrt, iprt
    {
      Node(mrt.table, iprt.table)
    }

    constructor (self: Self)
      ensures Valid() && fresh(mrt) && fresh(iprt) && this.self == self
      ensures State() == Node(map[], map[]) && sent == []
    {
      this.self := self;
      var t := new IprtManager();
      iprt := t;
      mrt := new MrtManager(self, t);
      sent := [];
    }

    method Unicast(msg: Msg, masterIP: AddrMaster)
      requires Valid()
      modifies this, iprt
      ensures sent == old(sent) + old(UnicastOut(self, State(), msg, masterIP))
      ensures State() == old(UnicastNode(self, State(), msg))
    {
      var dst := DstMoteID(msg);
      var hop := mrt.LookUpNextHopMaster(dst);
      if hop != 0 {
        if hop == self.ip {
          if self.hasSF {
            var mote := mrt.LookUpNextHopMote(dst);
            sent := sent + [ToMotes(ForMotes(self, msg.(addr := mote)))];
          }
        } else {
          sent := sent + [ToMaster(hop, msg, masterIP)];
        }
      } else if !Loopback(self) {
        var ip := InetAddr(self.ip % 0x100, self.ip / 0x100 % 0x100, dst / 0x100, dst % 0x100);
        DerivedAddress(self, dst);
        if dst != ANY_MASTER {
          sent := sent + [ToMaster(ip, msg, masterIP)];
        }
      }
    }

    method DispatchPacket(packet: Msg, from: Source, masterIP: AddrMaster)
      requires Valid()
      modifies this, mrt, iprt
      ensures sent == old(sent) + old(DispatchOut(self, State(), packet, from, masterIP))
      ensures State() == old(DispatchNode(self, State(), packet, from))
    {
      var msg := packet;
      if from.FromNeighbor? && from.neighborIP == self.ip { return; }

      if msg.body.Routing? && (from.FromMote? || from.FromNeighbor?) {
        var ttl := msg.body.ttl;
        msg := msg.(body := msg.body.(ttl := if ttl == 0 then 255 else ttl - 1));
        if ttl == 0 {
          if msg.body.protocol == PROTOCOL_TCMP {
            sent := sent + [ToTransport(msg)];
          }
          return;
        } else if msg.body.src == self.local {
          return;
        }
      }

      mrt.MarkUsed(SrcMoteID(msg));
      var dst := DstMoteID(msg);
      if dst != BROADCAST {
        match from
        case FromMote =>
          if SrcMoteID(msg) != 0 {
            mrt.Update(SrcMoteID(msg), NextHopMoteID(msg), self.ip);
          }
          if dst == self.local || dst == ANY_MASTER || dst == UART {
            sent := sent + [ToTransport(msg)];
          } else {
            Unicast(msg, masterIP);
          }
        case FromNeighbor(_) =>
          if dst == self.local || dst == ANY_MASTER {
            sent := sent + [ToTransport(msg)];
          } else {
            Unicast(msg, masterIP);
          }
        case FromTransport =>
          if dst == self.local || dst == ANY_MASTER {
            if self.hasSF {
              sent := sent + [ToMotes(ForMotes(self, msg))];
            }
          } else {
            Unicast(msg, masterIP);
          }
      } else {
        if !from.FromTransport? {
          sent := sent + [ToTransport(msg)];
        } else {
          if self.hasSF {
            msg := ForMotes(self, msg);
            sent := sent + [ToMotes(msg)];
          }
          if !Loopback(self) {
            sent := sent + [ToAllMasters(msg, masterIP)];
          }
        }
      }
    }

    /** A datagram carrying a packet arrives from fromIP. */
    method OnReceive(fromIP: AddrMaster, masterIP: AddrMaster, msg: Msg)
      requires Valid()
      modifies this, mrt, iprt
      ensures fromIP == self.ip ==> sent == old(sent) && State() == old(State())
      ensures fromIP != self.ip ==>
                var heard := old(Heard(self, State(), msg, masterIP, fromIP));
                && sent == old(sent) + DispatchOut(self, heard, msg, FromNeighbor(fromIP), masterIP)
                && State() == DispatchNode(self, heard, msg, FromNeighbor(fromIP))
    {
      if fromIP == self.ip { return; }
      var src := SrcMoteID(msg);
      if src != 0 {
        if DstMoteID(msg) != BROADCAST {
          mrt.Update(src, src, masterIP);
        } else {
          mrt.Update(src, src, MoteIDtoIP(self, src));
        }
      }
      var hop := iprt.LookUpNextHop(fromIP);
      if hop == 0 {
        iprt.Update(fromIP, fromIP);
      }
      assert State() == old(Heard(self, State(), msg, masterIP, fromIP));
      DispatchPacket(msg, FromNeighbor(fromIP), masterIP);
    }
  }
}
