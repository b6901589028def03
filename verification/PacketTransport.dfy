/** The master's packet transport: one connection per task and mote, each sending one packet
    at a time until it is acknowledged and keeping count of what it receives. */
module PacketTransport {

  import opened Common
  import opened Seqno
  import E = LossEwma
  import A = LossAli

  const MAX_RETX: nat := 5
  const ACK_TIMEOUT: nat := 3000000

  datatype Key = Key(tid: Word, addr: Word)

  datatype Flag = SendFlag | AckFlag | NoAckFlag | OtherFlag

  /** What the transport tells its surroundings: a packet to write, a payload received, or
      the end of a send. */
  datatype Out =
    | Transmit(key: Key, seqno: Word, flag: Flag, data: seq<Byte>)
    | Deliver(key: Key, data: seq<Byte>)
    | Done(key: Key, packet: Option<seq<Byte>>, success: bool)

  /** last is the newest number received; an alarm of 0 is off; packet is what waits for an
      acknowledgement. */
  datatype Record = Record(key: Key, last: Word, lost: nat, received: nat, alarm: nat,
                           sent: Word, packet: Option<seq<Byte>>, retx: nat, ewma: E.Ewma, ali: A.Ali)

  /** When the timer may still ask for a retransmission there is a packet to retransmit. */
  predicate RecordOk(c: Record) {
    && c.retx <= MAX_RETX
    && (c.alarm > 0 && c.retx < MAX_RETX ==> c.packet.Some?)
    && A.AliOk(c.ali)
  }

  function Fresh(key: Key, seqno: Word): (r: Record)
    ensures RecordOk(r)
  {
    Record(key, seqno, 0, 0, 0, 0, None, 0, E.START, A.START)
  }

  type Conn = c: Record | RecordOk(c) witness Fresh(Key(0, 0), 0)

  // ---------- what happens to one connection ----------

  datatype Step = Step(conn: Conn, outs: seq<Out>)

  function SendStep(c: Conn, msg: seq<Byte>, now: nat): (r: Step) {
    var seqno := (c.sent + 1) % WORD;
    Step(c.(packet := Some(msg), retx := 0, sent := seqno, alarm := now + ACK_TIMEOUT),
         [Transmit(c.key, seqno, SendFlag, msg)])
  }

  function AckStep(c: Conn): (r: Step) {
    Step(c.(alarm := 0, packet := None), [Done(c.key, c.packet, true)])
  }

  function Account(c: Conn, seqno: Word, now: nat): (r: Conn) {
    if Newer(seqno, c.last) then
      c.(lost := c.lost + Missing(seqno, c.last), received := c.received + 1, last := seqno,
         ewma := E.EwmaStep(c.ewma, c.last, seqno, now), ali := A.AliStep(c.ali, c.last, seqno))
    else c
  }

  /** A payload is acknowledged and passed up even when its number is old. */
  function DataStep(c: Conn, seqno: Word, ackWanted: bool, data: seq<Byte>, now: nat): (r: Step) {
    Step(Account(c, seqno, now),
         (if ackWanted then [Transmit(c.key, seqno, AckFlag, [])] else []) + [Deliver(c.key, data)])
  }

  predicate Due(c: Record, now: nat) {
    0 < c.alarm <= now
  }

  /** Giving up leaves the alarm as it is, so the next poll finds it due again. */
  function TimerStep(c: Conn, now: nat): (r: Step)
    requires Due(c, now)
  {
    if c.retx < MAX_RETX then
      Step(c.(retx := c.retx + 1, alarm := now + ACK_TIMEOUT), [Transmit(c.key, c.sent, SendFlag, c.packet.value)])
    else
      Step(c.(packet := None), [Done(c.key, c.packet, false)])
  }

  function RestartStep(c: Conn): (r: Conn) {
    c.(ewma := E.EwmaRestart(c.ewma), ali := A.AliRestart(c.ali))
  }

  // ---------- what happens to the list ----------

  type Conns = seq<Conn>

  function Without<T>(list: seq<T>, i: nat): (r: seq<T>)
    requires i < |list|
  {
    list[..i] + list[i + 1..]
  }

  /** The first connection for the key; the length of the list if there is none. */
  function IndexOf(list: Conns, key: Key): (r: nat)
    ensures r <= |list|
    ensures r < |list| ==> list[r].key == key
    ensures forall i :: 0 <= i < r ==> list[i].key != key
  {
    if list == [] || list[0].key == key then 0 else 1 + IndexOf(list[1..], key)
  }

  function FirstDue(list: Conns, now: nat): (r: nat)
    ensures r <= |list|
    ensures r < |list| ==> Due(list[r], now)
    ensures forall i :: 0 <= i < r ==> !Due(list[i], now)
  {
    if list == [] || Due(list[0], now) then 0 else 1 + FirstDue(list[1..], now)
  }

  datatype Change = Change(list: Conns, outs: seq<Out>)

  function Replace(list: Conns, i: nat, s: Step): (r: Change)
    requires i < |list|
  {
    Change(list[i := s.conn], s.outs)
  }

  /** The list with a connection for the key, a new one going to the front. */
  function WithConn(list: Conns, key: Key, seqno: Word): (r: Conns)
    ensures IndexOf(r, key) < |r|
  {
    if IndexOf(list, key) < |list| then list else [Fresh(key, seqno)] + list
  }

  function ListSend(list: Conns, key: Key, msg: seq<Byte>, now: nat): (r: Change) {
    var l := WithConn(list, key, 0);
    var i := IndexOf(l, key);
    Replace(l, i, SendStep(l[i], msg, now))
  }

  function ListAck(list: Conns, key: Key): (r: Change) {
    var i := IndexOf(list, key);
    if i == |list| then Change(list, []) else Replace(list, i, AckStep(list[i]))
  }

  function ListData(list: Conns, key: Key, seqno: Word, ackWanted: bool, data: seq<Byte>, now: nat): (r: Change) {
    var l := WithConn(list, key, seqno);
    var i := IndexOf(l, key);
    Replace(l, i, DataStep(l[i], seqno, ackWanted, data, now))
  }

  function ListReceive(list: Conns, key: Key, seqno: Word, flag: Flag, data: seq<Byte>, now: nat): (r: Change) {
    match flag
    case AckFlag => ListAck(list, key)
    case OtherFlag => Change(list, [])
    case _ => ListData(list, key, seqno, flag == SendFlag, data, now)
  }

  /** One poll serves one connection, the first in the list whose alarm is due. */
  function ListPoll(list: Conns, now: nat): (r: Change) {
    var i := FirstDue(list, now);
    if i == |list| then Change(list, []) else Replace(list, i, TimerStep(list[i], now))
  }

  function ListRestart(list: Conns, key: Key): (r: Change) {
    var i := IndexOf(list, key);
    if i == |list| then Change(list, []) else Change(list[i := RestartStep(list[i])], [])
  }

  /** The list without the connections of one task. */
  function Remaining(list: Conns, tid: Word): (r: Conns) {
    if list == [] then []
    else (if list[0].key.tid == tid then [] else [list[0]]) + Remaining(list[1..], tid)
  }

  /** The list with its first i connections looked at already. */
  function PartlyDeleted(list: Conns, i: nat, tid: Word): (r: Conns)
    requires i <= |list|
  {
    list[..i] + Remaining(list[i..], tid)
  }

  lemma OneMoreDeleted(list: Conns, i: nat, tid: Word)
    requires i < |list|
    ensures PartlyDeleted(list, i, tid)
         == if list[i].key.tid == tid then PartlyDeleted(Without(list, i), i, tid) else PartlyDeleted(list, i + 1, tid)
  {
    assert list[i..][1..] == list[i + 1..];
    assert Without(list, i)[i..] == list[i + 1..] && Without(list, i)[..i] == list[..i];
  }

  // ---------- the program ----------

  /** Tell both estimators of a number, while last is still the one before it. */
  method UpdateConnectionLossrate(ewma: E.LossEwma, ali: A.LossAli, last: Word, seqno: Word, now: nat)
    requires ali.Valid() && A.AliOk(ali.State())
    modifies ewma, ali, ali.s
    ensures ali.Valid() && A.AliOk(ali.State())
    ensures ewma.State() == E.EwmaStep(old(ewma.State()), last, seqno, now)
    ensures ali.State() == A.AliStep(old(ali.State()), last, seqno)
  {
    ewma.Update(last, seqno, now);
    ali.Update(last, seqno);
  }

  /** ewma and ali are the states of the two estimators, which LossEwma and LossAli keep in
      fields and in a ring. */
  class Connection {
    const key: Key
    var last: Word
    var lost: nat
    var received: nat
    var alarm: nat
    var sent: Word
    var packet: Option<seq<Byte>>
    var retx: nat
    var ewma: E.Ewma
    var ali: A.Ali

    ghost function Fields(): Record
      reads this
    {
      Record(key, last, lost, received, alarm, sent, packet, retx, ewma, ali)
    }

    ghost predicate Valid()
      reads this
    {
      RecordOk(Fields())
    }

    ghost function State(): Conn
      reads this
      requires Valid()
    {
      Fields()
    }

    constructor (key: Key, seqno: Word)
      ensures Valid() && State() == Fresh(key, seqno)
    {
      this.key, last, lost, received, alarm := key, seqno, 0, 0, 0;
      sent, packet, retx, ewma, ali := 0, None, 0, E.START, A.START;
    }

    method Send(msg: seq<Byte>, now: nat) returns (outs: seq<Out>)
      requires Valid()
      modifies this
      ensures Valid() && Step(State(), outs) == SendStep(old(State()), msg, now)
    {
      retx, packet := 0, Some(msg);
      sent := (sent + 1) % WORD;
      outs := [Transmit(key, sent, SendFlag, msg)];
      alarm := now + ACK_TIMEOUT;
    }

    method SendDone(success: bool) returns (outs: seq<Out>)
      modifies this`packet
      ensures packet == None && outs == [Done(key, old(packet), success)]
    {
      outs := [Done(key, packet, success)];
      packet := None;
    }

    method Acknowledged() returns (outs: seq<Out>)
      requires Valid()
      modifies this
      ensures Valid() && Step(State(), outs) == AckStep(old(State()))
    {
      alarm := 0;
      outs := SendDone(true);
    }

    /** Count the numbers between last and seqno. */
    method DetectMissing(seqno: Word) returns (detected: nat)
      modifies this`lost
      ensures detected == Missing(seqno, last) && lost == old(lost) + detected
    {
      detected := 0;
      var lastSeqno := last;
      while Cmp(seqno, Next(lastSeqno)) > 0
        invariant lost == old(lost) + detected
        invariant detected + Missing(seqno, lastSeqno) == Missing(seqno, last)
        decreases Missing(seqno, lastSeqno)
      {
        lastSeqno := Next(lastSeqno);
        lost := lost + 1;
        detected := detected + 1;
      }
    }

    /** The estimators are told of a new seqno while last is still the number before it. */
    method CountNew(seqno: Word, now: nat)
      requires Valid() && Newer(seqno, last)
      modifies this
      ensures Valid() && State() == Account(old(State()), seqno, now)
    {
      var missing := DetectMissing(seqno);
      ewma := E.EwmaStep(ewma, last, seqno, now);
      ali := A.AliStep(ali, last, seqno);
      last := seqno;
      received := received + 1;
    }

    method ReceiveData(seqno: Word, ackWanted: bool, data: seq<Byte>, now: nat) returns (outs: seq<Out>)
      requires Valid()
      modifies this
      ensures Valid() && Step(State(), outs) == DataStep(old(State()), seqno, ackWanted, data, now)
    {
      if Cmp(seqno, last) > 0 { CountNew(seqno, now); }
      outs := [];
      if ackWanted { outs := [Transmit(key, seqno, AckFlag, [])]; }
      outs := outs + [Deliver(key, data)];
    }

    method TimerFired(now: nat) returns (outs: seq<Out>)
      requires Valid() && Due(State(), now)
      modifies this
      ensures Valid() && Step(State(), outs) == TimerStep(old(State()), now)
    {
      if retx < MAX_RETX {
        retx := retx + 1;
        outs := [Transmit(key, sent, SendFlag, packet.value)];
        alarm := now + ACK_TIMEOUT;
      } else {
        outs := SendDone(false);
      }
    }

    method RestartAveraging()
      requires Valid()
      modifies this
      ensures Valid() && State() == RestartStep(old(State()))
    {
      ewma := E.EwmaRestart(ewma);
      ali := A.AliRestart(ali);
    }
  }

  ghost predicate AllValid(cs: seq<Connection>)
    reads cs
  {
    forall i :: 0 <= i < |cs| ==> cs[i].Valid()
  }

  ghost function States(cs: seq<Connection>): (r: Conns)
    requires AllValid(cs)
    reads cs
    ensures |r| == |cs| && forall i :: 0 <= i < |r| ==> r[i] == cs[i].State()
  {
    seq(|cs|, i requires 0 <= i < |cs| && cs[i].Valid() reads cs => cs[i].State())
  }

  /** What a list has become when only one of its connections may have changed. */
  lemma OneChanged(cs: seq<Connection>, was: Conns, i: nat)
    requires |cs| == |was| && i < |cs| && cs[i].Valid()
    requires forall j :: 0 <= j < |cs| && j != i ==> cs[j].Fields() == was[j]
    ensures AllValid(cs) && States(cs) == was[i := cs[i].State()]
  {
    assert forall j {:trigger cs[j]} :: 0 <= j < |cs| && j != i ==> cs[j].Fields() == was[j];
  }

  lemma OneInFront(c: Connection, cs: seq<Connection>)
    requires c.Valid() && AllValid(cs)
    ensures AllValid([c] + cs) && States([c] + cs) == [c.State()] + States(cs)
  {
    var all := [c] + cs;
    assert forall i {:trigger all[i]} :: 0 <= i < |all| ==> all[i].Valid();
  }

  predicate Distinct<T(==)>(xs: seq<T>) {
    forall i, j :: 0 <= i < j < |xs| ==> xs[i] != xs[j]
  }

  lemma DistinctWithout<T>(xs: seq<T>, i: nat)
    requires i < |xs| && Distinct(xs)
    ensures Distinct(Without(xs, i))
  {
  }

  lemma StatesWithout(cs: seq<Connection>, i: nat)
    requires i < |cs| && AllValid(cs)
    ensures AllValid(Without(cs, i)) && States(Without(cs, i)) == Without(States(cs), i)
  {
    var rest := Without(cs, i);
    assert forall j {:trigger rest[j]} :: 0 <= j < |rest| ==> rest[j].Valid();
  }

  /** The list of connections; a new one goes to the front. */
  class Transport {
    var list: seq<Connection>

    ghost predicate Valid()
      reads this, list
    {
      AllValid(list) && Distinct(list)
    }

    ghost function State(): (r: Conns)
      reads this, list
      requires Valid()
    {
      States(list)
    }

    constructor ()
      ensures Valid() && list == [] && State() == []
    {
      list := [];
    }

    method FindConnection(key: Key) returns (c: Connection?)
      requires Valid()
      ensures var i := IndexOf(State(), key);
              if i == |list| then c == null else c == list[i]
    {
      for i := 0 to |list|
        invariant forall j :: 0 <= j < i ==> list[j].key != key
      {
        if list[i].key == key { return list[i]; }
      }
      return null;
    }

    method CreateConnection(key: Key, seqno: Word) returns (c: Connection)
      requires Valid()
      modifies this
      ensures list == [c] + old(list) && fresh(c)
      ensures Valid() && State() == [Fresh(key, seqno)] + old(State())
    {
      ghost var was := State();
      c := new Connection(key, seqno);
      assert AllValid(list) && States(list) == was;
      OneInFront(c, list);
      list := [c] + list;
    }

    /** Find the connection for the key, or make one. */
    method Obtain(key: Key, seqno: Word) returns (c: Connection)
      requires Valid()
      modifies this
      ensures Valid() && State() == WithConn(old(State()), key, seqno)
      ensures c == list[IndexOf(State(), key)]
      ensures list == old(list) || (list == [c] + old(list) && fresh(c))
    {
      var found := FindConnection(key);
      if found == null {
        c := CreateConnection(key, seqno);
      } else {
        c := found;
      }
    }

    method Send(key: Key, msg: seq<Byte>, now: nat) returns (outs: seq<Out>)
      requires Valid()
      modifies this, list
      ensures Valid() && Change(State(), outs) == ListSend(old(State()), key, msg, now)
    {
      var c := Obtain(key, 0);
      ghost var was := State();
      ghost var i := IndexOf(was, key);
      outs := c.Send(msg, now);
      OneChanged(list, was, i);
    }

    method ReceiveAck(key: Key) returns (outs: seq<Out>)
      requires Valid()
      modifies list
      ensures Valid() && Change(State(), outs) == ListAck(old(State()), key)
    {
      var c := FindConnection(key);
      if c == null { return []; }
      outs := c.Acknowledged();
      OneChanged(list, old(State()), IndexOf(old(State()), key));
    }

    method ReceiveData(key: Key, seqno: Word, ackWanted: bool, data: seq<Byte>, now: nat) returns (outs: seq<Out>)
      requires Valid()
      modifies this, list
      ensures Valid() && Change(State(), outs) == ListData(old(State()), key, seqno, ackWanted, data, now)
    {
      var c := Obtain(key, seqno);
      ghost var was := State();
      ghost var i := IndexOf(was, key);
      outs := c.ReceiveData(seqno, ackWanted, data, now);
      OneChanged(list, was, i);
    }

    method Receive(key: Key, seqno: Word, flag: Flag, data: seq<Byte>, now: nat) returns (outs: seq<Out>)
      requires Valid()
      modifies this, list
      ensures Valid() && Change(State(), outs) == ListReceive(old(State()), key, seqno, flag, data, now)
    {
      match flag
      case AckFlag => outs := ReceiveAck(key);
      case OtherFlag => outs := [];
      case _ => outs := ReceiveData(key, seqno, flag == SendFlag, data, now);
    }

    method Poll(now: nat) returns (outs: seq<Out>)
      requires Valid()
      modifies list
      ensures Valid() && Change(State(), outs) == ListPoll(old(State()), now)
    {
      var i := 0;
      while i < |list| && !(list[i].alarm > 0 && list[i].alarm <= now)
        invariant i <= |list|
        invariant forall j :: 0 <= j < i ==> !Due(State()[j], now)
      {
        i := i + 1;
      }
      assert i == FirstDue(State(), now);
      if i == |list| { return []; }
      outs := list[i].TimerFired(now);
      OneChanged(list, old(State()), i);
    }

    method RestartAveraging(key: Key)
      requires Valid()
      modifies this, list
      ensures Valid() && State() == ListRestart(old(State()), key).list
    {
      var c := FindConnection(key);
      if c != null {
        c.RestartAveraging();
        OneChanged(list, old(State()), IndexOf(old(State()), key));
      }
    }

    method DeleteConnection(i: nat)
      requires Valid() && i < |list|
      modifies this
      ensures list == Without(old(list), i)
      ensures Valid() && State() == Without(old(State()), i)
    {
      DistinctWithout(list, i);
      StatesWithout(list, i);
      list := Without(list, i);
    }

    /** Take every connection of a task off the list. */
    method DeleteTid(tid: Word) returns (deleted: bool)
      requires Valid()
      modifies this
      ensures Valid() && State() == Remaining(old(State()), tid)
      ensures deleted <==> State() != old(State())
    {
      deleted := false;
      var i := 0;
      while i < |list|
        invariant i <= |list| && Valid()
        invariant PartlyDeleted(State(), i, tid) == Remaining(old(State()), tid)
        invariant if deleted then |list| < |old(list)| else State() == old(State())
        decreases |list| - i
      {
        OneMoreDeleted(State(), i, tid);
        if list[i].key.tid == tid {
          deleted := true;
          DeleteConnection(i);
        } else {
          i := i + 1;
        }
      }
    }
  }
}
