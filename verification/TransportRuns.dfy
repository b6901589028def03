/** The packet transport over whole runs: any interleaving of sends, arrivals, polls, restarts
    and deletions, over any number of connections. */
module TransportRuns {

  import opened Common
  import opened PacketTransport

  // ---------- runs of the whole transport ----------

  datatype Event =
    | SendMsg(key: Key, msg: seq<Byte>, now: nat)
    | Receive(key: Key, seqno: Word, flag: Flag, data: seq<Byte>, now: nat)
    | Poll(now: nat)
    | Restart(key: Key)
    | Delete(tid: Word)

  function Apply(list: Conns, e: Event): (r: Change) {
    match e
    case SendMsg(key, msg, now) => ListSend(list, key, msg, now)
    case Receive(key, seqno, flag, data, now) => ListReceive(list, key, seqno, flag, data, now)
    case Poll(now) => ListPoll(list, now)
    case Restart(key) => ListRestart(list, key)
    case Delete(tid) => Change(Remaining(list, tid), [])
  }

  /** A run, event by event; the last to happen is outermost. */
  datatype Past<T> = Nothing | Then(past: Past<T>, last: T)

  /** The list after a run that starts with no connection, and everything put out in it. */
  function Run(es: Past<Event>): (r: Change) {
    match es
    case Nothing => Change([], [])
    case Then(past, last) =>
      var step := Apply(Run(past).list, last);
      Change(step.list, Run(past).outs + step.outs)
  }

  // ---------- one connection at a time ----------

  /** What an event means to one connection. */
  datatype Local =
    | Sending(msg: seq<Byte>, now: nat)
    | Acked
    | Arrived(seqno: Word, ackWanted: bool, data: seq<Byte>, now: nat)
    | TimedOut(now: nat)
    | Restarted
    | Deleted

  datatype LocalState = LocalState(conn: Option<Conn>, outs: seq<Out>)

  function OfStep(s: Step): (r: LocalState) {
    LocalState(Some(s.conn), s.outs)
  }

  function LocalStep(key: Key, c: Option<Conn>, e: Local): (r: LocalState) {
    match e
    case Sending(msg, now) => OfStep(SendStep(if c.Some? then c.value else Fresh(key, 0), msg, now))
    case Acked => if c.Some? then OfStep(AckStep(c.value)) else LocalState(None, [])
    case Arrived(seqno, ackWanted, data, now) =>
      OfStep(DataStep(if c.Some? then c.value else Fresh(key, seqno), seqno, ackWanted, data, now))
    case TimedOut(now) =>
      if c.Some? && Due(c.value, now) then OfStep(TimerStep(c.value, now)) else LocalState(c, [])
    case Restarted => LocalState(if c.Some? then Some(RestartStep(c.value)) else None, [])
    case Deleted => LocalState(None, [])
  }

  function LocalRun(key: Key, hs: Past<Local>): (r: LocalState) {
    match hs
    case Nothing => LocalState(None, [])
    case Then(past, last) =>
      var step := LocalStep(key, LocalRun(key, past).conn, last);
      LocalState(step.conn, LocalRun(key, past).outs + step.outs)
  }

  function View(list: Conns, key: Key): (r: Option<Conn>) {
    var i := IndexOf(list, key);
    if i < |list| then Some(list[i]) else None
  }

  function OutsFor(key: Key, outs: seq<Out>): (r: seq<Out>) {
    if outs == [] then []
    else (if outs[0].key == key then [outs[0]] else []) + OutsFor(key, outs[1..])
  }

  function Project(list: Conns, e: Event, key: Key): (r: Option<Local>) {
    match e
    case SendMsg(k, msg, now) => if k == key then Some(Sending(msg, now)) else None
    case Receive(k, seqno, flag, data, now) =>
      if k != key || flag == OtherFlag then None
      else if flag == AckFlag then Some(Acked)
      else Some(Arrived(seqno, flag == SendFlag, data, now))
    case Poll(now) =>
      var i := FirstDue(list, now);
      if i < |list| && list[i].key == key then Some(TimedOut(now)) else None
    case Restart(k) => if k == key then Some(Restarted) else None
    case Delete(tid) => if tid == key.tid then Some(Deleted) else None
  }

  /** The part of a run that concerns one connection. */
  function History(es: Past<Event>, key: Key): (r: Past<Local>) {
    match es
    case Nothing => Nothing
    case Then(past, last) =>
      match Project(Run(past).list, last, key)
      case None => History(past, key)
      case Some(e) => Then(History(past, key), e)
  }

  predicate UniqueKeys(list: Conns) {
    forall i, j :: 0 <= i < j < |list| ==> list[i].key != list[j].key
  }

  lemma {:induction false} IndexIsUnique(list: Conns, i: nat)
    requires UniqueKeys(list) && i < |list|
    ensures IndexOf(list, list[i].key) == i
  {
  }

  lemma {:induction false} OutsForJoins(key: Key, a: seq<Out>, b: seq<Out>)
    ensures OutsFor(key, a + b) == OutsFor(key, a) + OutsFor(key, b)
    decreases |a|
  {
    if a == [] {
      assert a + b == b;
    } else {
      OutsForJoins(key, a[1..], b);
      assert (a + b)[1..] == a[1..] + b;
    }
  }

  lemma {:induction false} OutsForOne(key: Key, k: Key, outs: seq<Out>)
    requires forall i :: 0 <= i < |outs| ==> outs[i].key == k
    ensures OutsFor(key, outs) == if k == key then outs else []
    decreases |outs|
  {
    if outs != [] {
      OutsForOne(key, k, outs[1..]);
    }
  }

  lemma ReplaceViews(list: Conns, i: nat, s: Step, key: Key)
    requires UniqueKeys(list) && i < |list| && s.conn.key == list[i].key
    requires forall j :: 0 <= j < |s.outs| ==> s.outs[j].key == list[i].key
    ensures var r := Replace(list, i, s);
            && UniqueKeys(r.list)
            && View(r.list, key) == (if key == list[i].key then Some(s.conn) else View(list, key))
            && OutsFor(key, r.outs) == (if key == list[i].key then s.outs else [])
            && View(list, list[i].key) == Some(list[i])
  {
    var l := list[i := s.conn];
    assert forall j :: 0 <= j < |l| ==> l[j].key == list[j].key;
    IndexIsUnique(list, i);
    assert IndexOf(l, key) == IndexOf(list, key);
    OutsForOne(key, list[i].key, s.outs);
  }

  lemma WithConnViews(list: Conns, k: Key, seqno: Word, key: Key)
    requires UniqueKeys(list)
    ensures var l := WithConn(list, k, seqno);
            && UniqueKeys(l)
            && (key != k ==> View(l, key) == View(list, key))
            && View(l, k) == Some(if View(list, k).Some? then View(list, k).value else Fresh(k, seqno))
  {
    var l := WithConn(list, k, seqno);
    if l != list {
      assert l[1..] == list;
    }
  }

  predicate Projects(list: Conns, e: Event, key: Key) {
    var r, p := Apply(list, e), Project(list, e, key);
    && UniqueKeys(r.list)
    && LocalState(View(r.list, key), OutsFor(key, r.outs))
    == if p.None? then LocalState(View(list, key), []) else LocalStep(key, View(list, key), p.value)
  }

  lemma SendProjects(list: Conns, k: Key, msg: seq<Byte>, now: nat, key: Key)
    requires UniqueKeys(list)
    ensures Projects(list, SendMsg(k, msg, now), key)
  {
    var l := WithConn(list, k, 0);
    WithConnViews(list, k, 0, key);
    ReplaceViews(l, IndexOf(l, k), SendStep(l[IndexOf(l, k)], msg, now), key);
  }

  lemma DataProjects(list: Conns, k: Key, seqno: Word, flag: Flag, data: seq<Byte>, now: nat, key: Key)
    requires UniqueKeys(list) && flag != AckFlag && flag != OtherFlag
    ensures Projects(list, Receive(k, seqno, flag, data, now), key)
  {
    var l := WithConn(list, k, seqno);
    var i := IndexOf(l, k);
    WithConnViews(list, k, seqno, key);
    ReplaceViews(l, i, DataStep(l[i], seqno, flag == SendFlag, data, now), key);
  }

  lemma AckProjects(list: Conns, k: Key, seqno: Word, data: seq<Byte>, now: nat, key: Key)
    requires UniqueKeys(list)
    ensures Projects(list, Receive(k, seqno, AckFlag, data, now), key)
  {
    var i := IndexOf(list, k);
    if i < |list| {
      ReplaceViews(list, i, AckStep(list[i]), key);
    }
  }

  lemma PollProjects(list: Conns, now: nat, key: Key)
    requires UniqueKeys(list)
    ensures Projects(list, Poll(now), key)
  {
    var i := FirstDue(list, now);
    if i < |list| {
      ReplaceViews(list, i, TimerStep(list[i], now), key);
    }
  }

  lemma RestartProjects(list: Conns, k: Key, key: Key)
    requires UniqueKeys(list)
    ensures Projects(list, Restart(k), key)
  {
    var i := IndexOf(list, k);
    if i < |list| {
      ReplaceViews(list, i, Step(RestartStep(list[i]), []), key);
    }
  }

  lemma ViewFront(c: Conn, list: Conns, key: Key)
    ensures View([c] + list, key) == if c.key == key then Some(c) else View(list, key)
  {
    assert ([c] + list)[1..] == list;
  }

  lemma {:induction false} RemainingView(list: Conns, tid: Word, key: Key)
    ensures View(Remaining(list, tid), key) == if key.tid == tid then None else View(list, key)
    decreases |list|
  {
    if list != [] {
      var c, rest := list[0], list[1..];
      RemainingView(rest, tid, key);
      assert list == [c] + rest;
      ViewFront(c, rest, key);
      ViewFront(c, Remaining(rest, tid), key);
      assert [] + Remaining(rest, tid) == Remaining(rest, tid);
    }
  }

  predicate HasKey(list: Conns, key: Key) {
    View(list, key).Some?
  }

  lemma UniqueFront(c: Conn, list: Conns)
    ensures UniqueKeys([c] + list) <==> UniqueKeys(list) && !HasKey(list, c.key)
  {
    var all := [c] + list;
    if UniqueKeys(all) {
      forall i, j | 0 <= i < j < |list| ensures list[i].key != list[j].key {
        assert all[i + 1].key != all[j + 1].key;
      }
    }
    var k := IndexOf(list, c.key);
    assert k < |list| ==> all[k + 1].key == all[0].key;
  }

  lemma {:induction false} RemainingUnique(list: Conns, tid: Word)
    requires UniqueKeys(list)
    ensures UniqueKeys(Remaining(list, tid))
    decreases |list|
  {
    if list != [] {
      var c, rest := list[0], list[1..];
      assert list == [c] + rest;
      UniqueFront(c, rest);
      RemainingUnique(rest, tid);
      RemainingView(rest, tid, c.key);
      UniqueFront(c, Remaining(rest, tid));
      assert [] + Remaining(rest, tid) == Remaining(rest, tid);
    }
  }

  lemma DeleteProjects(list: Conns, tid: Word, key: Key)
    requires UniqueKeys(list)
    ensures Projects(list, Delete(tid), key)
  {
    RemainingUnique(list, tid);
    RemainingView(list, tid, key);
  }

  /** One event changes at most the connections it concerns, as each of them alone would
      change. */
  lemma StepProjects(list: Conns, e: Event, key: Key)
    requires UniqueKeys(list)
    ensures Projects(list, e, key)
  {
    match e
    case SendMsg(k, msg, now) => SendProjects(list, k, msg, now, key);
    case Receive(k, seqno, flag, data, now) =>
      if flag == AckFlag {
        AckProjects(list, k, seqno, data, now, key);
      } else if flag != OtherFlag {
        DataProjects(list, k, seqno, flag, data, now, key);
      }
    case Poll(now) => PollProjects(list, now, key);
    case Restart(k) => RestartProjects(list, k, key);
    case Delete(tid) => DeleteProjects(list, tid, key);
  }

  /** A new connection goes in front of the others, so of two that are due it is served
      first. */
  lemma NewestServedFirst(list: Conns, k: Key, msg: seq<Byte>, sent: nat, now: nat)
    requires View(list, k).None? && sent + ACK_TIMEOUT <= now
    ensures var l := Apply(list, SendMsg(k, msg, sent)).list;
            l[1..] == list && l[0].key == k && Project(l, Poll(now), k) == Some(TimedOut(now))
  {
  }

  /** Connections do not disturb one another: in any run, each ends as it would on its own
      history alone, and has put out the same. */
  lemma {:induction false} RunProjects(es: Past<Event>, key: Key)
    ensures UniqueKeys(Run(es).list)
    ensures LocalState(View(Run(es).list, key), OutsFor(key, Run(es).outs)) == LocalRun(key, History(es, key))
  {
    match es
    case Nothing =>
    case Then(past, last) =>
      RunProjects(past, key);
      var before := Run(past);
      StepProjects(before.list, last, key);
      OutsForJoins(key, before.outs, Apply(before.list, last).outs);
  }
}
