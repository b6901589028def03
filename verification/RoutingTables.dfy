/** The two ageing tables of a master router.  IPRT gives the next-hop address for a
    master's address; MRT gives, for a mote id, the master it belongs to and the mote to
    go through.  Every look-up in IPRT marks the entry it returns as used, and a refresh
    drops what was not used since the one before. */
module RoutingTables {

  type AddrMote = x: int | 0 <= x < 0x1_0000
  type AddrMaster = x: int | 0 <= x < 0x1_0000_0000

  const BROADCAST: AddrMote := 0xFFFF
  const ANY_MASTER: AddrMote := 0xFFED
  const UART: AddrMote := 0x007E

  datatype IprtEntry = IprtEntry(destIP: AddrMaster, nextHopIP: AddrMaster, used: bool)
  datatype MrtEntry = MrtEntry(moteID: AddrMote, nextMoteID: AddrMote, masterIP: AddrMaster, used: bool)

  type Iprt = map<AddrMaster, IprtEntry>
  type Mrt = map<AddrMote, MrtEntry>

  /** What a router knows of itself; hasSF says whether motes are attached. */
  datatype Self = Self(ip: AddrMaster, local: AddrMote, hasSF: bool)

  // ---------- addresses ----------

  /** The address, in network byte order, that a.b.c.d stands for. */
  function InetAddr(a: int, b: int, c: int, d: int): (r: AddrMaster)
    requires 0 <= a < 256 && 0 <= b < 256 && 0 <= c < 256 && 0 <= d < 256
  {
    a + 0x100 * b + 0x1_0000 * c + 0x100_0000 * d
  }

  function MoteIDtoIP(self: Self, moteID: AddrMote): (r: AddrMaster) {
    (moteID / 0x100) * 0x1_0000 + (moteID % 0x100) * 0x100_0000 + self.ip % 0x1_0000
  }

  /** The mote id that an address was derived from. */
  function DerivedMoteID(ip: AddrMaster): (r: AddrMote) {
    ip / 0x100_0000 + (ip / 0x1_0000 % 0x100) * 0x100
  }

  lemma LowBytes(x: nat)
    ensures x % 0x1_0000 == x % 0x100 + 0x100 * (x / 0x100 % 0x100)
  {
    var q := x / 0x100;
    assert x == 0x100 * q + x % 0x100 && q == 0x100 * (q / 0x100) + q % 0x100;
    RemainderIs(x, q / 0x100, x % 0x100 + 0x100 * (q % 0x100));
  }

  lemma RemainderIs(x: nat, k: nat, r: nat)
    requires x == 0x1_0000 * k + r && r < 0x1_0000
    ensures x % 0x1_0000 == r
  {
  }

  lemma HighBytes(hi: int, lo: int, tail: int)
    requires 0 <= hi < 0x100 && 0 <= lo < 0x100 && 0 <= tail < 0x1_0000
    ensures var ip := hi * 0x1_0000 + lo * 0x100_0000 + tail;
            ip / 0x1_0000 == hi + lo * 0x100 && ip / 0x100_0000 == lo && ip / 0x1_0000 % 0x100 == hi
  {
  }

  /** The dotted address built for an unknown mote is its derived address, the derived
      address gives the id back, and so different motes have different addresses. */
  lemma DerivedAddress(self: Self, moteID: AddrMote)
    ensures MoteIDtoIP(self, moteID)
         == InetAddr(self.ip % 0x100, self.ip / 0x100 % 0x100, moteID / 0x100, moteID % 0x100)
    ensures DerivedMoteID(MoteIDtoIP(self, moteID)) == moteID
  {
    LowBytes(self.ip);
    HighBytes(moteID / 0x100, moteID % 0x100, self.ip % 0x1_0000);
  }

  predicate Loopback(self: Self) {
    self.ip % 0x100 == 0x7F && self.ip / 0x100 % 0x100 == 0
  }

  // ---------- IPRT, on values ----------

  function Consulted(t: Iprt, ip: AddrMaster): (t': Iprt) {
    if ip in t then t[ip := t[ip].(used := true)] else t
  }

  function NextHop(t: Iprt, ip: AddrMaster): (r: AddrMaster) {
    if ip in t then t[ip].nextHopIP else 0
  }

  function IprtUpdate(t: Iprt, destIP: AddrMaster, nextHopIP: AddrMaster): (t': Iprt) {
    if destIP in t then t[destIP := t[destIP].(nextHopIP := nextHopIP, used := true)]
    else t[destIP := IprtEntry(destIP, nextHopIP, true)]
  }

  function Aged(t: Iprt): (t': Iprt) {
    map ip | ip in t && t[ip].used :: t[ip].(used := false)
  }

  function IprtUpdates(t: Iprt, routes: seq<(AddrMaster, AddrMaster)>): (t': Iprt)
    decreases |routes|
  {
    if routes == [] then t else IprtUpdates(IprtUpdate(t, routes[0].0, routes[0].1), routes[1..])
  }

  class IprtManager {
    var table: Iprt

    constructor ()
      ensures table == map[]
    {
      table := map[];
    }

    method LookUpNextHop(destIP: AddrMaster) returns (r: AddrMaster)
      modifies this
      ensures table == Consulted(old(table), destIP) && r == NextHop(old(table), destIP)
    {
      if destIP !in table { return 0; }
      table := table[destIP := table[destIP].(used := true)];
      return table[destIP].nextHopIP;
    }

    method Update(destIP: AddrMaster, nextHopIP: AddrMaster)
      modifies this
      ensures table == IprtUpdate(old(table), destIP, nextHopIP)
    {
      if destIP in table {
        table := table[destIP := table[destIP].(used := true)];
        table := table[destIP := table[destIP].(nextHopIP := nextHopIP, used := true)];
      } else {
        table := table[destIP := IprtEntry(destIP, nextHopIP, true)];
      }
    }

    /** Age every entry, then take in the host routes the system has. */
    method Refresh(routes: seq<(AddrMaster, AddrMaster)>)
      modifies this
      ensures table == IprtUpdates(Aged(old(table)), routes)
    {
      var rest := table.Keys;
      while rest != {}
        invariant rest <= old(table).Keys
        invariant table.Keys == rest + (Aged(old(table)).Keys - rest)
        invariant forall ip :: ip in table ==> table[ip] == if ip in rest then old(table)[ip] else Aged(old(table))[ip]
        decreases rest
      {
        var ip :| ip in rest;
        rest := rest - {ip};
        if table[ip].used {
          table := table[ip := table[ip].(used := false)];
        } else {
          table := table - {ip};
        }
      }
      assert table == Aged(old(table));
      var i := 0;
      while i < |routes|
        invariant i <= |routes|
        invariant IprtUpdates(table, routes[i..]) == IprtUpdates(Aged(old(table)), routes)
      {
        Update(routes[i].0, routes[i].1);
        i := i + 1;
      }
    }
  }

  // ---------- MRT, on values ----------

  function SetUsed(m: Mrt, moteID: AddrMote): (m': Mrt) {
    if moteID in m then m[moteID := m[moteID].(used := true)] else m
  }

  function MrtUpdate(self: Self, m: Mrt, moteID: AddrMote, nextHop: AddrMote, masterIP: AddrMaster): (m': Mrt) {
    if moteID in m then
      m[moteID := if nextHop != 0 then m[moteID].(masterIP := masterIP, nextMoteID := nextHop, used := true)
                  else m[moteID].(used := true)]
    else if moteID == self.local then m
    else m[moteID := MrtEntry(moteID, nextHop, masterIP, true)]
  }

  /** Does IPRT have a route to the master mote e could be? */
  predicate HasRoute(self: Self, t: Iprt, e: MrtEntry) {
    NextHop(t, MoteIDtoIP(self, e.moteID)) != 0
  }

  function Refreshed(self: Self, m: Mrt, t: Iprt): (m': Mrt) {
    map id | id in m && m[id].used :: m[id].(used := HasRoute(self, t, m[id]))
  }

  /** The addresses the refresh consults IPRT about. */
  function Asked(self: Self, m: Mrt): (s: set<AddrMaster>) {
    set id | id in m && m[id].used :: MoteIDtoIP(self, m[id].moteID)
  }

  function AllConsulted(t: Iprt, s: set<AddrMaster>): (t': Iprt) {
    map ip | ip in t :: if ip in s then t[ip].(used := true) else t[ip]
  }

  lemma AskedGrows(self: Self, m: Mrt, before: set<AddrMote>, id: AddrMote)
    requires id in m && id in before
    ensures Asked(self, m - (before - {id})) ==
            if m[id].used then Asked(self, m - before) + {MoteIDtoIP(self, m[id].moteID)} else Asked(self, m - before)
  {
    var small, big := m - before, m - (before - {id});
    forall ip | ip in Asked(self, big)
      ensures ip in Asked(self, small) || (m[id].used && ip == MoteIDtoIP(self, m[id].moteID))
    {
      var k :| k in big && big[k].used && ip == MoteIDtoIP(self, big[k].moteID);
      if k != id { assert k in small; }
    }
    forall ip | ip in Asked(self, small)
      ensures ip in Asked(self, big)
    {
      var k :| k in small && small[k].used && ip == MoteIDtoIP(self, small[k].moteID);
      assert k in big;
    }
    if m[id].used { assert id in big; }
  }

  /** The table half way through a refresh, with the entries of rest still to be visited. */
  function PartlyRefreshed(self: Self, m: Mrt, t: Iprt, rest: set<AddrMote>): (m': Mrt) {
    map id | id in m && (id in rest || m[id].used) ::
      if id in rest then m[id] else m[id].(used := HasRoute(self, t, m[id]))
  }

  lemma OneMoreRefreshed(self: Self, m: Mrt, t: Iprt, rest: set<AddrMote>, id: AddrMote)
    requires id in m && id in rest
    ensures PartlyRefreshed(self, m, t, rest - {id}) ==
            if m[id].used then PartlyRefreshed(self, m, t, rest)[id := m[id].(used := HasRoute(self, t, m[id]))]
            else PartlyRefreshed(self, m, t, rest) - {id}
  {
  }

  lemma ConsultedOneMore(t: Iprt, s: set<AddrMaster>, ip: AddrMaster)
    ensures Consulted(AllConsulted(t, s), ip) == AllConsulted(t, s + {ip})
    ensures forall d :: NextHop(AllConsulted(t, s), d) == NextHop(t, d)
  {
  }

  class MrtManager {
    const self: Self
    const iprt: IprtManager
    var table: Mrt

    constructor (self: Self, iprt: IprtManager)
      ensures this.self == self && this.iprt == iprt && table == map[]
    {
      this.self := self;
      this.iprt := iprt;
      table := map[];
    }

    method MarkUsed(moteID: AddrMote)
      modifies this
      ensures table == SetUsed(old(table), moteID)
    {
      if moteID in table {
        table := table[moteID := table[moteID].(used := true)];
      }
    }

    method LookUpNextHopMaster(moteID: AddrMote) returns (r: AddrMaster)
      modifies iprt
      ensures r == NextHopMaster(self, table, old(iprt.table), moteID)
      ensures iprt.table
           == if moteID in table then Consulted(old(iprt.table), table[moteID].masterIP) else old(iprt.table)
    {
      if moteID !in table { return 0; }
      var hop := iprt.LookUpNextHop(table[moteID].masterIP);
      if self.ip == table[moteID].masterIP || hop == 0 {
        return table[moteID].masterIP;
      } else {
        return hop;
      }
    }

    /** A master's address ends up cut to the 16 bits of a mote address. */
    method LookUpNextHopMote(moteID: AddrMote) returns (r: AddrMote)
      modifies iprt
      ensures r == NextHopMote(self, table, old(iprt.table), moteID)
      ensures iprt.table == if moteID in table && table[moteID].masterIP != self.ip
                            then Consulted(old(iprt.table), table[moteID].masterIP) else old(iprt.table)
    {
      if moteID !in table { return 0; }
      if self.ip == table[moteID].masterIP {
        return table[moteID].nextMoteID;
      } else {
        var hop := iprt.LookUpNextHop(table[moteID].masterIP);
        return hop % 0x1_0000;
      }
    }

    method Update(moteID: AddrMote, nextHop: AddrMote, masterIP: AddrMaster)
      modifies this
      ensures table == MrtUpdate(self, old(table), moteID, nextHop, masterIP)
    {
      if moteID !in table {
        if moteID == self.local { return; }
        table := table[moteID := MrtEntry(moteID, nextHop, masterIP, true)];
      } else {
        var e := table[moteID];
        if nextHop != 0 { e := e.(masterIP := masterIP, nextMoteID := nextHop); }
        table := table[moteID := e.(used := true)];
      }
    }

    /** One entry's turn in a refresh. */
    method AgeEntry(id: AddrMote)
      requires id in table
      modifies this, iprt
      ensures var (e, t) := (old(table)[id], old(iprt.table));
              if e.used then
                && table == old(table)[id := e.(used := HasRoute(self, t, e))]
                && iprt.table == Consulted(t, MoteIDtoIP(self, e.moteID))
              else table == old(table) - {id} && iprt.table == t
    {
      if table[id].used {
        table := table[id := table[id].(used := false)];
        var hop := iprt.LookUpNextHop(MoteIDtoIP(self, table[id].moteID));
        if hop != 0 {
          table := table[id := table[id].(used := true)];
        }
      } else {
        table := table - {id};
      }
    }

    method Refresh()
      modifies this, iprt
      ensures table == Refreshed(self, old(table), old(iprt.table))
      ensures iprt.table == AllConsulted(old(iprt.table), Asked(self, old(table)))
    {
      ghost var m0, t0 := table, iprt.table;
      var rest := table.Keys;
      while rest != {}
        invariant rest <= m0.Keys
        invariant table == PartlyRefreshed(self, m0, t0, rest)
        invariant iprt.table == AllConsulted(t0, Asked(self, m0 - rest))
        decreases rest
      {
        var id :| id in rest;
        AskedGrows(self, m0, rest, id);
        OneMoreRefreshed(self, m0, t0, rest, id);
        ConsultedOneMore(t0, Asked(self, m0 - rest), MoteIDtoIP(self, table[id].moteID));
        rest := rest - {id};
        AgeEntry(id);
      }
      assert m0 - {} == m0;
      assert table == Refreshed(self, m0, t0);
    }
  }

  function NextHopMaster(self: Self, m: Mrt, t: Iprt, moteID: AddrMote): (r: AddrMaster) {
    if moteID !in m then 0
    else if self.ip == m[moteID].masterIP || NextHop(t, m[moteID].masterIP) == 0 then m[moteID].masterIP
    else NextHop(t, m[moteID].masterIP)
  }

  function NextHopMote(self: Self, m: Mrt, t: Iprt, moteID: AddrMote): (r: AddrMote) {
    if moteID !in m then 0
    else if self.ip == m[moteID].masterIP then m[moteID].nextMoteID
    else NextHop(t, m[moteID].masterIP) % 0x1_0000
  }
}
