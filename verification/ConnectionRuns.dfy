/** What every history of one connection keeps: its transmissions, its counts and its loss
    estimates.  A deletion ends the life of a connection, and what comes after it makes a new
    one; the functions below look at the current life.  Every earlier life was the current one
    before its deletion. */
module ConnectionRuns {

  import opened Common
  import opened Seqno
  import opened PacketTransport
  import opened TransportRuns
  import E = LossEwma
  import A = LossAli

  function After(key: Key, hs: Past<Local>): (r: Option<Conn>) {
    LocalRun(key, hs).conn
  }

  // ---------- transmissions ----------

  /** No event has happened in the current life. */
  predicate Blank(hs: Past<Local>) {
    hs == Nothing || hs.last.Deleted?
  }

  function Sends(hs: Past<Local>): (n: nat) {
    if Blank(hs) then 0 else Sends(hs.past) + (if hs.last.Sending? then 1 else 0)
  }

  /** What the k-th send was given. */
  function Message(hs: Past<Local>, k: nat): (r: seq<Byte>)
    requires 1 <= k <= Sends(hs)
  {
    if Sends(hs.past) < k then hs.last.msg else Message(hs.past, k)
  }

  function IfData(o: Out): (r: seq<Out>) {
    if o.Transmit? && o.flag != AckFlag then [o] else []
  }

  /** The packets, other than acknowledgements, that a step transmits. */
  function DataOnly(outs: seq<Out>): (r: seq<Out>) {
    if outs == [] then [] else IfData(outs[0]) + DataOnly(outs[1..])
  }

  /** The packets transmitted after the k-th send and before the next. */
  function Transmissions(key: Key, hs: Past<Local>, k: nat): (r: seq<Out>) {
    if Blank(hs) then []
    else
      Transmissions(key, hs.past, k)
      + (if Sends(hs) == k then DataOnly(LocalStep(key, After(key, hs.past), hs.last).outs) else [])
  }

  predicate AllAre(outs: seq<Out>, o: Out) {
    forall i :: 0 <= i < |outs| ==> outs[i] == o
  }

  lemma AllAreJoin(a: seq<Out>, b: seq<Out>, o: Out)
    requires AllAre(a, o) && AllAre(b, o)
    ensures AllAre(a + b, o)
  {
  }

  /** At most six transmissions, all of the k-th message and all with the number k, counted
      in 16 bits. */
  predicate SendIsBounded(key: Key, hs: Past<Local>, k: nat)
    requires 1 <= k <= Sends(hs)
  {
    var sent := Transmissions(key, hs, k);
    1 <= |sent| <= 1 + MAX_RETX && AllAre(sent, Transmit(key, k % WORD, SendFlag, Message(hs, k)))
  }

  /** A connection after n sends, the last of msg, which has been transmitted count times. */
  predicate Sender(key: Key, c: Option<Conn>, n: nat, msg: seq<Byte>, count: nat) {
    match c
    case None => n == 0 && count == 0
    case Some(c) =>
      && c.key == key && c.sent == n % WORD
      && (if n == 0 then c.alarm == 0 && c.packet == None && count == 0 else count == 1 + c.retx)
      && (c.packet.Some? ==> c.packet.value == msg)
  }

  lemma FewData(outs: seq<Out>)
    ensures outs == [] ==> DataOnly(outs) == []
    ensures |outs| == 1 ==> DataOnly(outs) == IfData(outs[0])
    ensures |outs| == 2 ==> DataOnly(outs) == IfData(outs[0]) + IfData(outs[1])
  {
    if |outs| == 1 {
      assert DataOnly(outs[1..]) == [];
    } else if |outs| == 2 {
      assert outs[1..] == [outs[1]] && DataOnly(outs[1..][1..]) == [];
    }
  }

  lemma NextNumber(n: nat)
    ensures (n % WORD + 1) % WORD == (n + 1) % WORD
  {
  }

  lemma SenderSends(key: Key, c: Option<Conn>, n: nat, msg: seq<Byte>, count: nat, e: Local)
    requires Sender(key, c, n, msg, count) && e.Sending?
    ensures var s := LocalStep(key, c, e);
            && Sender(key, s.conn, n + 1, e.msg, 1)
            && DataOnly(s.outs) == [Transmit(key, (n + 1) % WORD, SendFlag, e.msg)]
  {
    NextNumber(n);
    FewData(LocalStep(key, c, e).outs);
  }

  lemma SenderGoesOn(key: Key, c: Option<Conn>, n: nat, msg: seq<Byte>, count: nat, e: Local)
    requires Sender(key, c, n, msg, count) && !e.Sending? && !e.Deleted?
    ensures var s := LocalStep(key, c, e);
            && Sender(key, s.conn, n, msg, count + |DataOnly(s.outs)|)
            && AllAre(DataOnly(s.outs), Transmit(key, n % WORD, SendFlag, msg))
  {
    FewData(LocalStep(key, c, e).outs);
  }

  /** A step other than a send transmits, if anything, the current message once more. */
  lemma SenderStep(key: Key, c: Option<Conn>, n: nat, msg: seq<Byte>, count: nat, e: Local)
    requires Sender(key, c, n, msg, count) && !e.Deleted?
    ensures var s := LocalStep(key, c, e);
            if e.Sending? then
              && Sender(key, s.conn, n + 1, e.msg, 1)
              && DataOnly(s.outs) == [Transmit(key, (n + 1) % WORD, SendFlag, e.msg)]
            else
              && Sender(key, s.conn, n, msg, count + |DataOnly(s.outs)|)
              && AllAre(DataOnly(s.outs), Transmit(key, n % WORD, SendFlag, msg))
  {
    if e.Sending? { SenderSends(key, c, n, msg, count, e); } else { SenderGoesOn(key, c, n, msg, count, e); }
  }

  function Current(hs: Past<Local>): (r: seq<Byte>) {
    if Sends(hs) > 0 then Message(hs, Sends(hs)) else []
  }

  lemma {:induction false} NotYetSent(key: Key, hs: Past<Local>, k: nat)
    requires k > Sends(hs)
    ensures Transmissions(key, hs, k) == []
  {
    if !Blank(hs) { NotYetSent(key, hs.past, k); }
  }

  lemma {:induction false} SenderStays(key: Key, hs: Past<Local>)
    ensures Sender(key, After(key, hs), Sends(hs), Current(hs), |Transmissions(key, hs, Sends(hs))|)
  {
    if !Blank(hs) {
      var before := hs.past;
      SenderStays(key, before);
      NotYetSent(key, before, Sends(before) + 1);
      var n, count := Sends(before), |Transmissions(key, before, Sends(before))|;
      SenderStep(key, After(key, before), n, Current(before), count, hs.last);
      var more := DataOnly(LocalStep(key, After(key, before), hs.last).outs);
      if hs.last.Sending? {
        assert Transmissions(key, hs, n + 1) == [] + more;
        assert Current(hs) == hs.last.msg;
      } else {
        assert |Transmissions(key, hs, n)| == count + |more|;
        assert Current(hs) == Current(before);
      }
    }
  }

  /** In every life of a connection, every send makes one to six transmissions; none is made
      before the first send. */
  lemma {:induction false} SendLimit(key: Key, hs: Past<Local>, k: nat)
    ensures if 1 <= k <= Sends(hs) then SendIsBounded(key, hs, k) else Transmissions(key, hs, k) == []
  {
    SenderStays(key, hs);
    if k > Sends(hs) {
      NotYetSent(key, hs, k);
    } else if !Blank(hs) {
      var before := hs.past;
      var n := Sends(before);
      SendLimit(key, before, k);
      if Sends(hs) == k {
        SenderStays(key, before);
        SenderStep(key, After(key, before), n, Current(before), |Transmissions(key, before, n)|, hs.last);
        var more := DataOnly(LocalStep(key, After(key, before), hs.last).outs);
        if k > 0 {
          AllAreJoin(Transmissions(key, before, k), more, Transmit(key, k % WORD, SendFlag, Message(hs, k)));
        }
      } else {
        assert Transmissions(key, hs, k) == Transmissions(key, before, k);
      }
    }
  }

  lemma {:induction false} DataOnlyJoins(a: seq<Out>, b: seq<Out>)
    ensures DataOnly(a + b) == DataOnly(a) + DataOnly(b)
    decreases |a|
  {
    if a == [] {
      assert a + b == b;
    } else {
      DataOnlyJoins(a[1..], b);
      assert (a + b)[1..] == a[1..] + b;
      Assoc(IfData(a[0]), DataOnly(a[1..]), DataOnly(b));
    }
  }

  function StillOpen(c: Option<Conn>, sends: nat): (n: nat) {
    if sends > 0 && c.Some? then MAX_RETX - c.value.retx else 0
  }

  /** The sends of all lives. */
  function AllSends(hs: Past<Local>): (n: nat) {
    if hs == Nothing then 0 else AllSends(hs.past) + (if hs.last.Sending? then 1 else 0)
  }

  /** All transmissions of a history are within six for each send so far, less the
      retransmissions still open to the current one. */
  lemma {:induction false} TotalLimit(key: Key, hs: Past<Local>)
    ensures |DataOnly(LocalRun(key, hs).outs)| + StillOpen(After(key, hs), Sends(hs)) <= (1 + MAX_RETX) * AllSends(hs)
  {
    if hs == Nothing {
    } else if hs.last.Deleted? {
      TotalLimit(key, hs.past);
      DataOnlyJoins(LocalRun(key, hs.past).outs, []);
    } else {
      var before := hs.past;
      TotalLimit(key, before);
      SenderStays(key, before);
      var step := LocalStep(key, After(key, before), hs.last);
      DataOnlyJoins(LocalRun(key, before).outs, step.outs);
      SenderStep(key, After(key, before), Sends(before), Current(before),
                 |Transmissions(key, before, Sends(before))|, hs.last);
    }
  }

  function SendEvents(es: Past<Event>, key: Key): (n: nat) {
    if es == Nothing then 0
    else SendEvents(es.past, key) + (if es.last.SendMsg? && es.last.key == key then 1 else 0)
  }

  lemma {:induction false} SendsOfHistory(es: Past<Event>, key: Key)
    ensures AllSends(History(es, key)) == SendEvents(es, key)
  {
    if es != Nothing {
      SendsOfHistory(es.past, key);
    }
  }

  /** In any run of the whole transport, a connection is sent at most six times as many
      packets as the run sends messages on it, whatever happens on the other connections. */
  lemma TransmissionsPerRun(es: Past<Event>, key: Key)
    ensures |DataOnly(OutsFor(key, Run(es).outs))| <= (1 + MAX_RETX) * SendEvents(es, key)
  {
    RunProjects(es, key);
    TotalLimit(key, History(es, key));
    SendsOfHistory(es, key);
    SenderStays(key, History(es, key));
  }

  function Copies(n: nat, o: Out): (r: seq<Out>) {
    seq(n, _ => o)
  }

  /** A connection whose timer is polled at the given times, with nothing else happening. */
  function Unattended(c: Conn, times: seq<nat>): (r: Step)
    decreases |times|
  {
    if times == [] then Step(c, [])
    else if Due(c, times[0]) then
      var first := TimerStep(c, times[0]);
      var rest := Unattended(first.conn, times[1..]);
      Step(rest.conn, first.outs + rest.outs)
    else Unattended(c, times[1..])
  }

  /** How many of the polls find the alarm due, when left retransmissions each put it off. */
  function DuePolls(alarm: nat, left: nat, times: seq<nat>): (n: nat)
    ensures n <= |times|
    decreases |times|
  {
    if times == [] then 0
    else if times[0] < alarm then DuePolls(alarm, left, times[1..])
    else if left > 0 then 1 + DuePolls(times[0] + ACK_TIMEOUT, left - 1, times[1..])
    else 1 + DuePolls(alarm, 0, times[1..])
  }

  /** What n due polls without an acknowledgement make of a pending send. */
  function Attempts(c: Conn, n: nat): (r: seq<Out>)
    requires c.packet.Some?
  {
    var left := MAX_RETX - c.retx;
    Copies(Min(n, left), Transmit(c.key, c.sent, SendFlag, c.packet.value))
    + (if n <= left then []
       else [Done(c.key, c.packet, false)] + Copies(n - left - 1, Done(c.key, None, false)))
  }

  /** However often the timer is polled, a send that is never acknowledged is transmitted
      five more times and then reported as failed; but the alarm stays due, so every later
      due poll reports a failure again, now without the packet. */
  lemma {:induction false} NeverAcknowledged(c: Conn, times: seq<nat>)
    requires c.alarm > 0 && c.packet.Some?
    ensures Unattended(c, times).outs == Attempts(c, DuePolls(c.alarm, MAX_RETX - c.retx, times))
    decreases |times|
  {
    if times != [] {
      var rest := times[1..];
      if !Due(c, times[0]) {
        NeverAcknowledged(c, rest);
      } else {
        var left, first := MAX_RETX - c.retx, TimerStep(c, times[0]);
        if left > 0 {
          NeverAcknowledged(first.conn, rest);
          OneMoreAttempt(c, DuePolls(first.conn.alarm, left - 1, rest));
        } else {
          GivenUp(first.conn, rest);
          assert Copies(0, Transmit(c.key, c.sent, SendFlag, c.packet.value)) == [];
        }
      }
    }
  }

  lemma OneMoreAttempt(c: Conn, n: nat)
    requires c.retx < MAX_RETX && c.packet.Some?
    ensures var o := Transmit(c.key, c.sent, SendFlag, c.packet.value);
            [o] + Attempts(c.(retx := c.retx + 1), n) == Attempts(c, n + 1)
  {
    var o, left := Transmit(c.key, c.sent, SendFlag, c.packet.value), MAX_RETX - c.retx;
    assert [o] + Copies(Min(n, left - 1), o) == Copies(Min(n + 1, left), o);
  }

  /** After giving up, each due poll is one more report of failure. */
  lemma {:induction false} GivenUp(c: Conn, times: seq<nat>)
    requires c.alarm > 0 && c.retx == MAX_RETX && c.packet.None?
    ensures Unattended(c, times).outs == Copies(DuePolls(c.alarm, 0, times), Done(c.key, None, false))
    decreases |times|
  {
    var o := Done(c.key, None, false);
    if times == [] {
      assert Copies(0, o) == [];
    } else {
      GivenUp(c, times[1..]);
      var n := DuePolls(c.alarm, 0, times[1..]);
      assert [o] + Copies(n, o) == Copies(n + 1, o);
    }
  }

  /** Once an alarm with nothing left to try is due, every poll is a due one. */
  lemma {:induction false} EveryLaterPoll(alarm: nat, times: seq<nat>)
    requires forall i :: 0 <= i < |times| ==> alarm <= times[i]
    ensures DuePolls(alarm, 0, times) == |times|
    decreases |times|
  {
    if times != [] { EveryLaterPoll(alarm, times[1..]); }
  }

  // ---------- reports ----------

  function IfReport(o: Out): (r: seq<Out>) {
    if o.Done? then [o] else []
  }

  /** The ends of sends that a step reports. */
  function ReportsOnly(outs: seq<Out>): (r: seq<Out>) {
    if outs == [] then [] else IfReport(outs[0]) + ReportsOnly(outs[1..])
  }

  /** What is reported after the k-th send and before the next. */
  function Reports(key: Key, hs: Past<Local>, k: nat): (r: seq<Out>) {
    if Blank(hs) then []
    else
      Reports(key, hs.past, k)
      + (if Sends(hs) == k then ReportsOnly(LocalStep(key, After(key, hs.past), hs.last).outs) else [])
  }

  /** The acknowledgements that come in that time. */
  function Acks(hs: Past<Local>, k: nat): (n: nat) {
    if Blank(hs) then 0 else Acks(hs.past, k) + (if Sends(hs) == k && hs.last.Acked? then 1 else 0)
  }

  /** A poll that finds the alarm due with all retransmissions made. */
  predicate GivesUp(c: Option<Conn>, e: Local) {
    e.TimedOut? && c.Some? && Due(c.value, e.now) && c.value.retx == MAX_RETX
  }

  function GiveUps(key: Key, hs: Past<Local>, k: nat): (n: nat) {
    if Blank(hs) then 0
    else GiveUps(key, hs.past, k) + (if Sends(hs) == k && GivesUp(After(key, hs.past), hs.last) then 1 else 0)
  }

  /** The reports with a given outcome. */
  function Outcomes(outs: seq<Out>, success: bool): (n: nat) {
    if outs == [] then 0
    else (if outs[0].Done? && outs[0].success == success then 1 else 0) + Outcomes(outs[1..], success)
  }

  lemma {:induction false} OutcomesJoin(a: seq<Out>, b: seq<Out>, success: bool)
    ensures Outcomes(a + b, success) == Outcomes(a, success) + Outcomes(b, success)
    decreases |a|
  {
    if a == [] {
      assert a + b == b;
    } else {
      OutcomesJoin(a[1..], b, success);
      assert (a + b)[1..] == a[1..] + b;
    }
  }

  /** The first report hands back the message; any more come without it. */
  predicate AreReports(key: Key, msg: seq<Byte>, reports: seq<Out>) {
    forall i :: 0 <= i < |reports| ==>
      reports[i].Done? && reports[i].key == key && reports[i].packet == if i == 0 then Some(msg) else None
  }

  /** A connection after n sends, the last of msg, with what has been reported since. */
  predicate Reporter(key: Key, c: Option<Conn>, n: nat, msg: seq<Byte>, reports: seq<Out>) {
    n > 0 ==>
      && c.Some? && c.value.key == key && AreReports(key, msg, reports)
      && c.value.packet == if reports == [] then Some(msg) else None
  }

  /** The step reports once for an acknowledgement or for giving up, and otherwise not. */
  lemma ReporterStep(key: Key, c: Option<Conn>, n: nat, msg: seq<Byte>, reports: seq<Out>, e: Local)
    requires Reporter(key, c, n, msg, reports) && (c.Some? ==> c.value.key == key) && !e.Deleted?
    ensures var s := LocalStep(key, c, e);
            var more := ReportsOnly(s.outs);
            if e.Sending? then Reporter(key, s.conn, n + 1, e.msg, []) && more == []
            else
              && Reporter(key, s.conn, n, msg, reports + more)
              && (n > 0 ==> CountedReports(more, if e.Acked? then 1 else 0, if GivesUp(c, e) then 1 else 0))
  {
    StepReports(key, c, e);
    var more := ReportsOnly(LocalStep(key, c, e).outs);
    if more != [] { assert Outcomes(more[1..], true) == Outcomes(more[1..], false) == 0; }
  }

  lemma StepReports(key: Key, c: Option<Conn>, e: Local)
    ensures ReportsOnly(LocalStep(key, c, e).outs)
         == if c.Some? && e.Acked? then [Done(c.value.key, c.value.packet, true)]
            else if GivesUp(c, e) then [Done(c.value.key, c.value.packet, false)]
            else []
  {
    var outs := LocalStep(key, c, e).outs;
    if |outs| == 1 {
      assert ReportsOnly(outs[1..]) == [];
    } else if |outs| == 2 {
      assert outs[1..] == [outs[1]] && ReportsOnly(outs[1..][1..]) == [];
    }
  }

  /** Successes and failures, and nothing else. */
  predicate CountedReports(reports: seq<Out>, successes: nat, failures: nat) {
    && Outcomes(reports, true) == successes && Outcomes(reports, false) == failures
    && |reports| == successes + failures
  }

  lemma {:induction false} NotYetReported(key: Key, hs: Past<Local>, k: nat)
    requires k > Sends(hs)
    ensures Reports(key, hs, k) == [] && Acks(hs, k) == 0 && GiveUps(key, hs, k) == 0
  {
    if !Blank(hs) { NotYetReported(key, hs.past, k); }
  }

  lemma {:induction false} ReporterStays(key: Key, hs: Past<Local>)
    ensures Reporter(key, After(key, hs), Sends(hs), Current(hs), Reports(key, hs, Sends(hs)))
  {
    if !Blank(hs) {
      var before := hs.past;
      var n := Sends(before);
      ReporterStays(key, before);
      SenderStays(key, before);
      NotYetReported(key, before, n + 1);
      ReporterStep(key, After(key, before), n, Current(before), Reports(key, before, n), hs.last);
      if hs.last.Sending? {
        assert Reports(key, hs, n + 1) == [] + [];
      }
    }
  }

  /** In every history, what is reported of the k-th send before the next is one success for
      each acknowledgement and one failure for each poll that finds nothing left to try.  So
      a send is reported exactly once if and only if these are one in all. */
  lemma {:induction false} ReportsOfSend(key: Key, hs: Past<Local>, k: nat)
    requires 1 <= k <= Sends(hs)
    ensures var reports := Reports(key, hs, k);
            AreReports(key, Message(hs, k), reports) && CountedReports(reports, Acks(hs, k), GiveUps(key, hs, k))
  {
    var before := hs.past;
    var n := Sends(before);
    ReporterStays(key, hs);
    ReporterStays(key, before);
    SenderStays(key, before);
    ReporterStep(key, After(key, before), n, Current(before), Reports(key, before, n), hs.last);
    if k <= n {
      ReportsOfSend(key, before, k);
      var more := ReportsOnly(LocalStep(key, After(key, before), hs.last).outs);
      OutcomesJoin(Reports(key, before, k), more, true);
      OutcomesJoin(Reports(key, before, k), more, false);
      if Sends(hs) != k { assert Reports(key, hs, k) == Reports(key, before, k); }
    } else {
      NotYetReported(key, before, k);
      assert Reports(key, hs, k) == [] + [];
    }
  }

  // ---------- counts ----------

  /** The event brings a number newer than all before it. */
  predicate Accepts(c: Option<Conn>, e: Local) {
    e.Arrived? && c.Some? && Newer(e.seqno, c.value.last)
  }

  predicate Accepted(key: Key, hs: Past<Local>) {
    hs != Nothing && Accepts(After(key, hs.past), hs.last)
  }

  /** The number the connection was created with. */
  function Created(key: Key, hs: Past<Local>): (r: Word) {
    if hs == Nothing then 0
    else if After(key, hs.past).Some? then Created(key, hs.past)
    else if hs.last.Arrived? then hs.last.seqno
    else 0
  }

  /** The packets received and those counted as lost make up the way from the number the
      connection began with to the newest. */
  predicate InBalance(created: Word, c: Option<Conn>) {
    c.Some? ==> Walk(created, c.value.received + c.value.lost) == c.value.last
  }

  predicate Balanced(key: Key, hs: Past<Local>) {
    InBalance(Created(key, hs), After(key, hs))
  }

  predicate AlwaysBalanced(key: Key, hs: Past<Local>) {
    Balanced(key, hs) && (hs != Nothing ==> AlwaysBalanced(key, hs.past))
  }

  predicate NumbersInRange(key: Key, hs: Past<Local>) {
    hs == Nothing || ((Accepted(key, hs) ==> InRange(hs.last.seqno)) && NumbersInRange(key, hs.past))
  }

  function Received(c: Option<Conn>): (n: nat) {
    if c.Some? then c.value.received else 0
  }

  function Lost(c: Option<Conn>): (n: nat) {
    if c.Some? then c.value.lost else 0
  }

  lemma Taken(key: Key, c: Conn, e: Local)
    requires Accepts(Some(c), e)
    ensures var d := LocalStep(key, Some(c), e).conn;
            && d == Some(Account(c, e.seqno, e.now)) && d.value.last == e.seqno
            && Received(d) == c.received + 1 && Lost(d) == c.lost + Missing(e.seqno, c.last)
  {
  }

  /** Any other event, short of a deletion, leaves the counts, the newest number and the epoch
      alone. */
  lemma Untouched(key: Key, c: Option<Conn>, e: Local)
    requires !Accepts(c, e) && !e.Deleted?
    ensures var d := LocalStep(key, c, e).conn;
            && Received(d) == Received(c) && Lost(d) == Lost(c)
            && (c.None? && d.Some? ==> d.value.ewma == E.START && d.value.last == if e.Arrived? then e.seqno else 0)
            && (c.Some? ==> d.Some? && d.value.last == c.value.last && SameEpoch(c.value.ewma, d.value.ewma))
  {
  }

  predicate SameEpoch(l: E.Ewma, m: E.Ewma) {
    l.updateTime == m.updateTime && l.updateSeqno == m.updateSeqno && l.received == m.received
  }

  lemma BalanceArrival(c: Conn, a: Word, now: nat, created: Word)
    requires Newer(a, c.last) && Walk(created, c.received + c.lost) == c.last
    ensures var d := Account(c, a, now);
            Walk(created, d.received + d.lost) == d.last <==> InRange(a)
  {
    MissingIsExact(a, c.last);
    WalkJoins(created, c.received + c.lost, Missing(a, c.last) + 1);
  }

  /** A step keeps the balance exactly when it does not take in a number out of range. */
  lemma StepBalance(key: Key, created: Word, c: Option<Conn>, e: Local)
    requires InBalance(created, c) && (c.None? ==> created == if e.Arrived? then e.seqno else 0)
    ensures InBalance(created, LocalStep(key, c, e).conn) <==> (Accepts(c, e) ==> InRange(e.seqno))
  {
    if Accepts(c, e) {
      BalanceArrival(c.value, e.seqno, e.now, created);
      Taken(key, c.value, e);
    } else if !e.Deleted? {
      Untouched(key, c, e);
    }
  }

  lemma BalanceStep(key: Key, hs: Past<Local>)
    requires hs != Nothing && Balanced(key, hs.past)
    ensures Balanced(key, hs) <==> (Accepted(key, hs) ==> InRange(hs.last.seqno))
  {
    StepBalance(key, Created(key, hs), After(key, hs.past), hs.last);
  }

  /** The counts balance all along a run exactly when every number taken in is in 1..50000. */
  lemma {:induction false} CountsBalance(key: Key, hs: Past<Local>)
    ensures AlwaysBalanced(key, hs) <==> NumbersInRange(key, hs)
  {
    if hs != Nothing {
      CountsBalance(key, hs.past);
      if AlwaysBalanced(key, hs.past) {
        BalanceStep(key, hs);
      }
    }
  }

  // ---------- the moving average ----------

  predicate EwmaSound(c: Option<Conn>) {
    c.Some? ==> E.EwmaOk(c.value.ewma, c.value.last)
  }

  predicate AlwaysSound(key: Key, hs: Past<Local>) {
    EwmaSound(After(key, hs)) && (hs != Nothing ==> AlwaysSound(key, hs.past))
  }

  /** Every accepted number is sound where it comes. */
  predicate NumbersSound(key: Key, hs: Past<Local>) {
    hs == Nothing || (StepSound(After(key, hs.past), hs.last) && NumbersSound(key, hs.past))
  }

  predicate StepSound(c: Option<Conn>, e: Local) {
    Accepts(c, e) ==> E.Sound(c.value.ewma, c.value.last, e.seqno)
  }

  lemma EwmaStepSound(key: Key, c: Option<Conn>, e: Local)
    requires EwmaSound(c)
    ensures EwmaSound(LocalStep(key, c, e).conn) <==> StepSound(c, e)
  {
    if Accepts(c, e) {
      E.EwmaStepKeepsOk(c.value.ewma, c.value.last, e.seqno, e.now);
      Taken(key, c.value, e);
    } else if !e.Deleted? {
      Untouched(key, c, e);
    }
  }

  /** The bounds on the moving average and on the count of the epoch hold all along a run,
      restarts included, exactly when every accepted number is sound. */
  lemma {:induction false} EwmaStaysOk(key: Key, hs: Past<Local>)
    ensures AlwaysSound(key, hs) <==> NumbersSound(key, hs)
  {
    if hs != Nothing {
      EwmaStaysOk(key, hs.past);
      if AlwaysSound(key, hs.past) {
        EwmaStepSound(key, After(key, hs.past), hs.last);
      }
    }
  }

  predicate RatesInBounds(c: Option<Conn>) {
    c.Some? ==> E.RatesOk(c.value.ewma)
  }

  predicate AlwaysInBounds(key: Key, hs: Past<Local>) {
    RatesInBounds(After(key, hs)) && (hs != Nothing ==> AlwaysInBounds(key, hs.past))
  }

  predicate StepFair(c: Option<Conn>, e: Local) {
    Accepts(c, e) ==> E.Fair(c.value.ewma, e.seqno, e.now)
  }

  /** Every accepted number is fair where and when it comes. */
  predicate NumbersFair(key: Key, hs: Past<Local>) {
    hs == Nothing || (StepFair(After(key, hs.past), hs.last) && NumbersFair(key, hs.past))
  }

  lemma RatesStep(key: Key, c: Option<Conn>, e: Local)
    requires RatesInBounds(c)
    ensures RatesInBounds(LocalStep(key, c, e).conn) <==> StepFair(c, e)
  {
    if Accepts(c, e) {
      E.EwmaStepKeepsRates(c.value.ewma, c.value.last, e.seqno, e.now);
      Taken(key, c.value, e);
    }
  }

  /** The rates alone stay in bounds all along a run, restarts included, exactly when every
      accepted number is fair. */
  lemma {:induction false} RatesStayInBounds(key: Key, hs: Past<Local>)
    ensures AlwaysInBounds(key, hs) <==> NumbersFair(key, hs)
  {
    if hs != Nothing {
      RatesStayInBounds(key, hs.past);
      if AlwaysInBounds(key, hs.past) {
        RatesStep(key, After(key, hs.past), hs.last);
      }
    }
  }

  /** So sound numbers are fair as well. */
  lemma {:induction false} SoundIsFair(key: Key, hs: Past<Local>)
    requires NumbersSound(key, hs)
    ensures NumbersFair(key, hs)
  {
    EwmaStaysOk(key, hs);
    SoundIsInBounds(key, hs);
    RatesStayInBounds(key, hs);
  }

  lemma {:induction false} SoundIsInBounds(key: Key, hs: Past<Local>)
    requires AlwaysSound(key, hs)
    ensures AlwaysInBounds(key, hs)
  {
    if hs != Nothing { SoundIsInBounds(key, hs.past); }
  }

  function Best(seqno: Word, now: nat): (r: Local) {
    Arrived(seqno, false, [], now)
  }

  lemma EwmaAfter(key: Key, hs: Past<Local>, seqno: Word, now: nat)
    requires After(key, hs).Some? && Newer(seqno, After(key, hs).value.last)
    ensures var (c, d) := (After(key, hs).value, After(key, Then(hs, Best(seqno, now))));
            d.Some? && d.value.last == seqno && d.value.ewma == E.EwmaStep(c.ewma, c.last, seqno, now)
  {
    Taken(key, After(key, hs).value, Best(seqno, now));
  }

  lemma NewConnection(key: Key, seqno: Word, now: nat)
    ensures After(key, Then(Nothing, Best(seqno, now))) == Some(Fresh(key, seqno))
  {
    var hs := Then(Nothing, Best(seqno, now));
    assert LocalRun(key, hs.past).conn == None;
    assert After(key, hs) == LocalStep(key, None, hs.last).conn;
  }

  /** A run of four arrivals, from the one that creates the connection on, after which the
      delivery rate is 2. */
  lemma RateExceedsOne(key: Key)
    ensures var h1 := Then(Then(Nothing, Best(65519, 500000)), Best(65520, 1000000));
            var h2 := Then(h1, Best(65521, 2000000));
            var h3 := Then(h2, Best(15521, 21000000));
            && RatesInBounds(After(key, h2)) && !StepFair(After(key, h2), h3.last)
            && After(key, h3).Some? && After(key, h3).value.ewma.di == 2.0
  {
    E.RateAboveOne();
    NewConnection(key, 65519, 500000);
    var h0 := Then(Nothing, Best(65519, 500000));
    var h1 := Then(h0, Best(65520, 1000000));
    EwmaAfter(key, h0, 65520, 1000000);
    EwmaAfter(key, h1, 65521, 2000000);
    EwmaAfter(key, Then(h1, Best(65521, 2000000)), 15521, 21000000);
  }

  predicate AtRange(c: Option<Conn>) {
    EwmaSound(c) && (c.Some? ==> E.EpochInRange(c.value.ewma, c.value.last))
  }

  /** Numbers up to MAX_SEQNO are always sound. */
  lemma {:induction false} InRangeIsSound(key: Key, hs: Past<Local>)
    requires NumbersInRange(key, hs)
    ensures NumbersSound(key, hs) && AtRange(After(key, hs))
  {
    if hs != Nothing {
      var c, e := After(key, hs.past), hs.last;
      InRangeIsSound(key, hs.past);
      EwmaStepSound(key, c, e);
      if Accepts(c, e) {
        Taken(key, c.value, e);
      } else if !e.Deleted? {
        Untouched(key, c, e);
      }
    }
  }

  /** The event starts the first epoch. */
  predicate Opens(c: Option<Conn>, e: Local) {
    Accepts(c, e) && c.value.ewma.updateTime < 1000000
  }

  /** The event ends an epoch and starts the next: its number is ten or more past the first
      of the epoch, or it comes more than ten seconds after that. */
  predicate Closes(c: Option<Conn>, e: Local) {
    && Accepts(c, e) && c.value.ewma.updateTime >= 1000000
    && (Diff(e.seqno, c.value.ewma.updateSeqno) >= 10 || (e.now - c.value.ewma.updateTime) / 1000000 > 10)
  }

  /** The connection as it was when the current epoch began. */
  function EpochStart(key: Key, hs: Past<Local>): (r: Option<Conn>) {
    if hs == Nothing then None
    else if Opens(After(key, hs.past), hs.last) || Closes(After(key, hs.past), hs.last) then After(key, hs)
    else EpochStart(key, hs.past)
  }

  function ReceivedSince(start: Option<Conn>, c: Option<Conn>): (n: int) {
    Received(c) - Received(start)
  }

  function LostSince(start: Option<Conn>, c: Option<Conn>): (n: int) {
    Lost(c) - Lost(start)
  }

  predicate InEpoch(c: Option<Conn>) {
    c.Some? && !E.Unset(c.value.ewma.updateTime)
  }

  /** The estimator's own count is what the connection's has grown by in this epoch. */
  predicate ReceivedCounted(start: Option<Conn>, c: Option<Conn>) {
    InEpoch(c) ==> c.value.ewma.received == ReceivedSince(start, c)
  }

  /** And its distance is what both of the connection's totals have grown by. */
  predicate EpochCounted(start: Option<Conn>, c: Option<Conn>) {
    && ReceivedCounted(start, c)
    && (InEpoch(c) ==>
          Diff(c.value.last, c.value.ewma.updateSeqno) == ReceivedSince(start, c) + LostSince(start, c))
  }

  /** The packets of an epoch are counted right in every run, whatever the numbers. */
  lemma {:induction false} EpochReceives(key: Key, hs: Past<Local>)
    ensures ReceivedCounted(EpochStart(key, hs), After(key, hs))
  {
    if hs != Nothing {
      var c := After(key, hs.past);
      EpochReceives(key, hs.past);
      if Accepts(c, hs.last) {
        Taken(key, c.value, hs.last);
      } else if !hs.last.Deleted? {
        Untouched(key, c, hs.last);
      }
    }
  }

  /** The distance from the start of the epoch grows by the packet and the losses before it. */
  lemma ArrivalCounts(c: Conn, e: Local)
    requires Accepts(Some(c), e) && InRange(e.seqno) && !E.Unset(c.ewma.updateTime) && AtRange(Some(c))
    ensures Diff(e.seqno, c.ewma.updateSeqno) == Diff(c.last, c.ewma.updateSeqno) + 1 + Missing(e.seqno, c.last)
    ensures c.ewma.received + 1 <= Diff(e.seqno, c.ewma.updateSeqno)
  {
    E.EpochGrows(c.ewma, c.last, e.seqno);
    MissingIsDistance(e.seqno, c.last);
  }

  lemma {:induction false} EpochsCount(key: Key, hs: Past<Local>)
    requires NumbersInRange(key, hs)
    ensures EpochCounted(EpochStart(key, hs), After(key, hs))
  {
    if hs != Nothing {
      var c := After(key, hs.past);
      EpochsCount(key, hs.past);
      InRangeIsSound(key, hs.past);
      if Accepts(c, hs.last) {
        Taken(key, c.value, hs.last);
        if !Opens(c, hs.last) { ArrivalCounts(c.value, hs.last); }
      } else if !hs.last.Deleted? {
        Untouched(key, c, hs.last);
      }
    }
  }

  /** The latest sample is the share that arrived of the numbers covered since start. */
  predicate SampledSince(start: Option<Conn>, c: Option<Conn>) {
    var received, lost := ReceivedSince(start, c), LostSince(start, c);
    c.Some? && received > 0 && lost >= 0 && c.value.ewma.di == E.Ratio(received, received + lost)
  }

  lemma SampleIsShare(key: Key, start: Option<Conn>, c: Conn, e: Local)
    requires Closes(Some(c), e) && InRange(e.seqno) && AtRange(Some(c)) && EpochCounted(start, Some(c))
    ensures SampledSince(start, LocalStep(key, Some(c), e).conn)
  {
    Taken(key, c, e);
    ArrivalCounts(c, e);
  }

  /** The sample an epoch ends with is the share that arrived of the numbers it covers. */
  lemma EpochRate(key: Key, hs: Past<Local>)
    requires NumbersInRange(key, hs) && hs != Nothing && Closes(After(key, hs.past), hs.last)
    ensures SampledSince(EpochStart(key, hs.past), After(key, hs))
  {
    var start, c := EpochStart(key, hs.past), After(key, hs.past);
    EpochsCount(key, hs.past);
    InRangeIsSound(key, hs.past);
    SampleIsShare(key, start, c.value, hs.last);
    assert LocalStep(key, c, hs.last).conn == After(key, hs);
  }

  /** No epoch that counts towards the average has lost a packet. */
  predicate Clean(key: Key, hs: Past<Local>) {
    if Blank(hs) || hs.last.Restarted? then true
    else
      var c := After(key, hs.past);
      if Opens(c, hs.last) then hs.last.seqno == 1
      else if Closes(c, hs.last) then
        && (c.value.ewma.restart || Clean(key, hs.past))
        && LostSince(EpochStart(key, hs.past), After(key, hs)) == 0
      else Clean(key, hs.past)
  }

  lemma ClosingKeepsClean(key: Key, start: Option<Conn>, c: Conn, e: Local)
    requires Closes(Some(c), e) && InRange(e.seqno) && AtRange(Some(c)) && EpochCounted(start, Some(c))
    ensures var d := LocalStep(key, Some(c), e).conn;
            d.value.ewma.lavg == 0.0 <==> (c.ewma.restart || c.ewma.lavg == 0.0) && LostSince(start, d) == 0
  {
    SampleIsShare(key, start, c, e);
    E.Averaged(LocalStep(key, Some(c), e).conn.value.ewma.di, c.ewma.davg);
  }

  lemma EstimateStays(key: Key, c: Option<Conn>, e: Local)
    requires !Opens(c, e) && !Closes(c, e) && !e.Restarted? && !e.Deleted?
    ensures var d := LocalStep(key, c, e).conn;
            d.Some? ==> d.value.ewma.lavg == if c.Some? then c.value.ewma.lavg else 0.0
  {
  }

  /** The average says that nothing is lost exactly when nothing was. */
  lemma {:induction false} NoLossIffClean(key: Key, hs: Past<Local>)
    requires NumbersInRange(key, hs)
    ensures match After(key, hs)
            case None => Clean(key, hs)
            case Some(c) => 0.0 <= c.ewma.lavg < 1.0 && (c.ewma.lavg == 0.0 <==> Clean(key, hs))
  {
    if hs != Nothing {
      var c := After(key, hs.past);
      NoLossIffClean(key, hs.past);
      InRangeIsSound(key, hs);
      InRangeIsSound(key, hs.past);
      if Closes(c, hs.last) {
        EpochsCount(key, hs.past);
        ClosingKeepsClean(key, EpochStart(key, hs.past), c.value, hs.last);
      } else if !Opens(c, hs.last) && !hs.last.Restarted? && !hs.last.Deleted? {
        EstimateStays(key, c, hs.last);
      }
    }
  }

  /** A connection in its first epoch, which began with 50011. */
  function AboveRange(): (r: Past<Local>) {
    Then(Then(Nothing, Best(50010, 500000)), Best(50011, 1000000))
  }

  lemma AboveRangeOpens(key: Key)
    ensures var c := After(key, AboveRange());
            && c.Some? && c.value.last == 50011 && EpochStart(key, AboveRange()) == c
            && c.value.ewma == E.EwmaStep(E.START, 50010, 50011, 1000000)
  {
    NewConnection(key, 50010, 500000);
    EwmaAfter(key, Then(Nothing, Best(50010, 500000)), 50011, 1000000);
    assert After(key, AboveRange().past) == Some(Fresh(key, 50010));
  }

  /** 50012 follows 50011, but 11 packets are counted as lost between the two. */
  lemma CountedAsLost(key: Key, c: Conn, now: nat)
    requires c.last == 50011
    ensures var d := LocalStep(key, Some(c), Best(50012, now)).conn;
            Accepts(Some(c), Best(50012, now)) && ReceivedSince(Some(c), d) == 1 && LostSince(Some(c), d) == 11
  {
    FalseLosses(12);
    Taken(key, c, Best(50012, now));
  }

  /** Above the range the counts of an epoch differ, when the next packet comes in it. */
  lemma EpochsMiscount(key: Key)
    ensures var hs := Then(AboveRange(), Best(50012, 2000000));
            !EpochCounted(EpochStart(key, hs), After(key, hs))
  {
    var c := After(key, AboveRange());
    AboveRangeOpens(key);
    CountedAsLost(key, c.value, 2000000);
    EwmaAfter(key, AboveRange(), 50012, 2000000);
  }

  lemma NothingLost()
    ensures var l := E.EwmaRestart(E.EwmaStep(E.START, 50010, 50011, 1000000));
            var m := E.EwmaStep(l, 50011, 50012, 20000000);
            !E.Unset(l.updateTime) && E.EpochEnds(l, 50012, 20000000) && m.di == 1.0 && m.lavg == 0.0
  {
  }

  lemma ClosesUnclean(key: Key, hs: Past<Local>, start: Option<Conn>)
    requires hs != Nothing && Closes(After(key, hs.past), hs.last) && EpochStart(key, hs.past) == start
    requires ReceivedSince(start, After(key, hs)) == 1 && LostSince(start, After(key, hs)) == 11
    requires After(key, hs).Some? && After(key, hs).value.ewma.di == 1.0
    ensures !SampledSince(start, After(key, hs)) && !Clean(key, hs)
  {
  }

  /** And when it comes after a restart and ends the epoch, the sample and the average say
      that nothing was lost, as is right, while the connection's counts say otherwise. */
  lemma RatesDisagree(key: Key)
    ensures var before := Then(AboveRange(), Restarted);
            var hs := Then(before, Best(50012, 20000000));
            && Closes(After(key, before), hs.last) && !SampledSince(EpochStart(key, before), After(key, hs))
            && After(key, hs).Some? && After(key, hs).value.ewma.lavg == 0.0 && !Clean(key, hs)
  {
    var c, before := After(key, AboveRange()), Then(AboveRange(), Restarted);
    AboveRangeOpens(key);
    assert After(key, before) == Some(RestartStep(c.value)) && EpochStart(key, before) == c;
    CountedAsLost(key, RestartStep(c.value), 20000000);
    EwmaAfter(key, before, 50012, 20000000);
    NothingLost();
    ClosesUnclean(key, Then(before, Best(50012, 20000000)), c);
  }

  // ---------- the loss intervals ----------

  // These four look at the events alone, not at what the connection has become.

  /** The newest number so far; a connection opened by a send begins with 0. */
  function Newest(hs: Past<Local>): (r: Option<Word>) {
    match hs
    case Nothing => None
    case Then(_, Deleted) => None
    case Then(past, Sending(_, _)) => if Newest(past).None? then Some(0) else Newest(past)
    case Then(past, Arrived(seqno, _, _, _)) =>
      if Newest(past).None? || Newer(seqno, Newest(past).value) then Some(seqno) else Newest(past)
    case Then(past, _) => Newest(past)
  }

  /** The last event brought a new number with a gap before it. */
  predicate SawGap(hs: Past<Local>) {
    && hs != Nothing && hs.last.Arrived? && Newest(hs.past).Some?
    && var newest := Newest(hs.past).value;
       Newer(hs.last.seqno, newest) && Newer(hs.last.seqno, Next(newest))
  }

  /** The last number lost, 0 if there is none; restarts do not forget it. */
  function LastLoss(hs: Past<Local>): (r: Word) {
    if Blank(hs) then 0 else if SawGap(hs) then Prev(hs.last.seqno) else LastLoss(hs.past)
  }

  /** All intervals since the averaging was last restarted, most recent first. */
  function Intervals(hs: Past<Local>): (r: seq<nat>) {
    if Blank(hs) || hs.last.Restarted? then []
    else if SawGap(hs) then [A.Interval(Newest(hs.past).value, LastLoss(hs.past))] + Intervals(hs.past)
    else Intervals(hs.past)
  }

  lemma {:induction false} NewestIsLast(key: Key, hs: Past<Local>)
    ensures Newest(hs) == if After(key, hs).Some? then Some(After(key, hs).value.last) else None
  {
    if hs != Nothing {
      NewestIsLast(key, hs.past);
    }
  }

  lemma PushRecent(x: nat, xs: seq<nat>)
    ensures A.Recent([x] + A.Recent(xs, A.N), A.N) == A.Recent([x] + xs, A.N)
  {
  }

  /** The ring, with the last loss and the estimate, is what the events so far make of it. */
  predicate RingIs(c: Option<Conn>, lastLoss: Word, intervals: seq<nat>) {
    match c
    case None => lastLoss == 0 && intervals == []
    case Some(c) =>
      && c.ali.lastLoss == lastLoss && c.ali.window == A.Recent(intervals, A.N)
      && (c.ali.lavg == 0.0 <==> intervals == [])
  }

  predicate GapSeen(c: Option<Conn>, e: Local) {
    Accepts(c, e) && Newer(e.seqno, Next(c.value.last))
  }

  /** What one event makes of the ring. */
  lemma RingStep(key: Key, c: Option<Conn>, e: Local, lastLoss: Word, intervals: seq<nat>)
    requires RingIs(c, lastLoss, intervals)
    ensures var d := LocalStep(key, c, e).conn;
            if e.Deleted? then RingIs(d, 0, [])
            else if e.Restarted? then RingIs(d, lastLoss, [])
            else if GapSeen(c, e) then
              RingIs(d, Prev(e.seqno), [A.Interval(c.value.last, lastLoss)] + intervals)
            else RingIs(d, lastLoss, intervals)
  {
    if GapSeen(c, e) {
      PushRecent(A.Interval(c.value.last, lastLoss), intervals);
    }
  }

  /** The ring always holds the eight most recent intervals, and the estimate is positive
      exactly when a loss has been seen. */
  lemma {:induction false} RingHoldsRecent(key: Key, hs: Past<Local>)
    ensures RingIs(After(key, hs), LastLoss(hs), Intervals(hs))
  {
    if hs != Nothing {
      RingHoldsRecent(key, hs.past);
      NewestIsLast(key, hs.past);
      RingStep(key, After(key, hs.past), hs.last, LastLoss(hs.past), Intervals(hs.past));
    }
  }

  /** With a loss seen, the mean over the ring is between 2 and 20, and the estimate is above
      0 and at most one half. */
  lemma EstimateBounds(key: Key, hs: Past<Local>)
    requires After(key, hs).Some? && Intervals(hs) != []
    ensures var a := After(key, hs).value.ali;
            && a.window != [] && 2.0 <= A.Mean(a.window) <= 20.0
            && 0.0 < a.lavg <= 0.5
  {
    RingHoldsRecent(key, hs);
    A.MeanBounds(After(key, hs).value.ali.window, 2, 20);
  }
}
