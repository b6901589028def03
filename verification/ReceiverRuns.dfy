/** What every history of a connection acknowledges and passes up, and how an acknowledgement
    ends a send. */
module ReceiverRuns {

  import opened Common
  import opened PacketTransport
  import opened TransportRuns
  import opened ConnectionRuns

  // ---------- acknowledgements and payloads ----------

  /** The acknowledgements and the payloads passed up among outs. */
  function OnlyAnswers(outs: seq<Out>): (r: seq<Out>) {
    if outs == [] then [] else IfAnswer(outs[0]) + OnlyAnswers(outs[1..])
  }

  function IfAnswer(o: Out): (r: seq<Out>) {
    if (o.Transmit? && o.flag == AckFlag) || o.Deliver? then [o] else []
  }

  /** What an arrival calls for: an acknowledgement with its number, if it asks for one, and
      then its payload; old numbers make no difference. */
  function Answer(key: Key, e: Local): (r: seq<Out>) {
    if !e.Arrived? then []
    else if e.ackWanted then [Transmit(key, e.seqno, AckFlag, []), Deliver(key, e.data)]
    else [Deliver(key, e.data)]
  }

  function Answers(key: Key, hs: Past<Local>): (r: seq<Out>) {
    if hs == Nothing then [] else Answers(key, hs.past) + Answer(key, hs.last)
  }

  lemma {:induction false} AnswersJoin(a: seq<Out>, b: seq<Out>)
    ensures OnlyAnswers(a + b) == OnlyAnswers(a) + OnlyAnswers(b)
    decreases |a|
  {
    if a == [] {
      assert a + b == b;
    } else {
      AnswersJoin(a[1..], b);
      assert (a + b)[1..] == a[1..] + b;
      Assoc(IfAnswer(a[0]), OnlyAnswers(a[1..]), OnlyAnswers(b));
    }
  }

  lemma FewOuts(outs: seq<Out>)
    ensures outs == [] ==> OnlyAnswers(outs) == []
    ensures |outs| == 1 ==> OnlyAnswers(outs) == IfAnswer(outs[0])
    ensures |outs| == 2 ==> OnlyAnswers(outs) == IfAnswer(outs[0]) + IfAnswer(outs[1])
  {
    if |outs| == 1 {
      assert OnlyAnswers(outs[1..]) == [];
    } else if |outs| == 2 {
      assert outs[1..] == [outs[1]] && OnlyAnswers(outs[1..][1..]) == [];
    }
  }

  lemma StepAnswers(key: Key, c: Option<Conn>, e: Local)
    requires c.Some? ==> c.value.key == key
    ensures OnlyAnswers(LocalStep(key, c, e).outs) == Answer(key, e)
    ensures LocalStep(key, c, e).conn.Some? ==> LocalStep(key, c, e).conn.value.key == key
  {
    FewOuts(LocalStep(key, c, e).outs);
  }

  /** In every history the acknowledgements and the payloads passed up are exactly those that
      its arrivals call for, in order. */
  lemma {:induction false} EveryArrivalAnswered(key: Key, hs: Past<Local>)
    ensures OnlyAnswers(LocalRun(key, hs).outs) == Answers(key, hs)
    ensures After(key, hs).Some? ==> After(key, hs).value.key == key
  {
    if hs != Nothing {
      EveryArrivalAnswered(key, hs.past);
      AnswersJoin(LocalRun(key, hs.past).outs, LocalStep(key, After(key, hs.past), hs.last).outs);
      StepAnswers(key, After(key, hs.past), hs.last);
    }
  }

  function IfAck(o: Out): (r: seq<Word>) {
    if o.Transmit? && o.flag == AckFlag then [o.seqno] else []
  }

  /** The numbers acknowledged. */
  function AckNumbers(outs: seq<Out>): (r: seq<Word>) {
    if outs == [] then [] else IfAck(outs[0]) + AckNumbers(outs[1..])
  }

  function IfDelivered(o: Out): (r: seq<seq<Byte>>) {
    if o.Deliver? then [o.data] else []
  }

  /** The payloads passed up. */
  function Delivered(outs: seq<Out>): (r: seq<seq<Byte>>) {
    if outs == [] then [] else IfDelivered(outs[0]) + Delivered(outs[1..])
  }

  lemma {:induction false} AckNumbersJoin(a: seq<Out>, b: seq<Out>)
    ensures AckNumbers(a + b) == AckNumbers(a) + AckNumbers(b)
    decreases |a|
  {
    if a == [] {
      assert a + b == b;
    } else {
      AckNumbersJoin(a[1..], b);
      assert (a + b)[1..] == a[1..] + b;
      Assoc(IfAck(a[0]), AckNumbers(a[1..]), AckNumbers(b));
    }
  }

  lemma {:induction false} DeliveredJoin(a: seq<Out>, b: seq<Out>)
    ensures Delivered(a + b) == Delivered(a) + Delivered(b)
    decreases |a|
  {
    if a == [] {
      assert a + b == b;
    } else {
      DeliveredJoin(a[1..], b);
      assert (a + b)[1..] == a[1..] + b;
      Assoc(IfDelivered(a[0]), Delivered(a[1..]), Delivered(b));
    }
  }

  lemma OneAnswer(o: Out)
    ensures AckNumbers(IfAnswer(o)) == IfAck(o) && Delivered(IfAnswer(o)) == IfDelivered(o)
  {
    assert [o][1..] == [];
  }

  lemma {:induction false} AnswersSuffice(outs: seq<Out>)
    ensures AckNumbers(OnlyAnswers(outs)) == AckNumbers(outs) && Delivered(OnlyAnswers(outs)) == Delivered(outs)
  {
    if outs != [] {
      AnswersSuffice(outs[1..]);
      OneAnswer(outs[0]);
      AckNumbersJoin(IfAnswer(outs[0]), OnlyAnswers(outs[1..]));
      DeliveredJoin(IfAnswer(outs[0]), OnlyAnswers(outs[1..]));
    }
  }

  // These four look at the events of a run alone.

  function IfAsks(e: Event, key: Key): (r: seq<Word>) {
    if e.Receive? && e.key == key && e.flag == SendFlag then [e.seqno] else []
  }

  /** The numbers of the packets for the key that ask to be acknowledged. */
  function Asking(es: Past<Event>, key: Key): (r: seq<Word>) {
    if es == Nothing then [] else Asking(es.past, key) + IfAsks(es.last, key)
  }

  function IfBrings(e: Event, key: Key): (r: seq<seq<Byte>>) {
    if e.Receive? && e.key == key && (e.flag == SendFlag || e.flag == NoAckFlag) then [e.data] else []
  }

  /** The payloads of the packets for the key, whether they ask or not. */
  function Arriving(es: Past<Event>, key: Key): (r: seq<seq<Byte>>) {
    if es == Nothing then [] else Arriving(es.past, key) + IfBrings(es.last, key)
  }

  lemma AnswerTo(list: Conns, key: Key, e: Event)
    ensures var p := Project(list, e, key);
            var outs := if p.Some? then Answer(key, p.value) else [];
            AckNumbers(outs) == IfAsks(e, key) && Delivered(outs) == IfBrings(e, key)
  {
    var p := Project(list, e, key);
    if p.Some? {
      var outs := Answer(key, p.value);
      if |outs| == 1 {
        assert AckNumbers(outs[1..]) == [] && Delivered(outs[1..]) == [];
      } else if |outs| == 2 {
        assert outs[1..] == [outs[1]];
        assert AckNumbers(outs[1..][1..]) == [] && Delivered(outs[1..][1..]) == [];
      }
    }
  }

  lemma {:induction false} HistoryAnswers(es: Past<Event>, key: Key)
    ensures AckNumbers(Answers(key, History(es, key))) == Asking(es, key)
    ensures Delivered(Answers(key, History(es, key))) == Arriving(es, key)
  {
    if es != Nothing {
      HistoryAnswers(es.past, key);
      AnswerTo(Run(es.past).list, key, es.last);
      var p, before := Project(Run(es.past).list, es.last, key), Answers(key, History(es.past, key));
      if p.Some? {
        AckNumbersJoin(before, Answer(key, p.value));
        DeliveredJoin(before, Answer(key, p.value));
      }
    }
  }

  /** In any run of the whole transport, a connection acknowledges exactly the numbers of the
      packets that asked for it, in order, and passes up exactly the payloads of all packets
      that came for it, in order, old ones and repetitions included. */
  lemma AcknowledgedAndDelivered(es: Past<Event>, key: Key)
    ensures AckNumbers(OutsFor(key, Run(es).outs)) == Asking(es, key)
    ensures Delivered(OutsFor(key, Run(es).outs)) == Arriving(es, key)
  {
    RunProjects(es, key);
    EveryArrivalAnswered(key, History(es, key));
    AnswersSuffice(LocalRun(key, History(es, key)).outs);
    HistoryAnswers(es, key);
  }

  // ---------- the sending side ----------

  /** Nothing sent since the last acknowledgement, in the current life. */
  predicate Answered(hs: Past<Local>) {
    if Blank(hs) then true
    else if hs.last.Sending? then false
    else hs.last.Acked? || Answered(hs.past)
  }

  predicate AlarmOff(c: Option<Conn>) {
    c.Some? ==> c.value.alarm == 0
  }

  lemma {:induction false} AnsweredIsOff(key: Key, hs: Past<Local>)
    requires Answered(hs)
    ensures AlarmOff(After(key, hs))
  {
    if !Blank(hs) && !hs.last.Acked? {
      AnsweredIsOff(key, hs.past);
    }
  }

  /** Once a send has been acknowledged, nothing of it is transmitted again, and no poll finds
      anything to do, until the next send. */
  lemma AcknowledgedIsOver(key: Key, hs: Past<Local>, e: Local)
    requires Answered(hs) && !e.Sending?
    ensures var outs := LocalStep(key, After(key, hs), e).outs;
            DataOnly(outs) == [] && (e.TimedOut? ==> outs == [])
  {
    AnsweredIsOff(key, hs);
    FewData(LocalStep(key, After(key, hs), e).outs);
  }

  /** A message sent now and never acknowledged is transmitted again at the first five polls
      that find three seconds passed since the transmission before, and then given up. */
  lemma UnansweredSend(c: Conn, msg: seq<Byte>, now: nat, times: seq<nat>)
    ensures var sent := SendStep(c, msg, now).conn;
            var due := DuePolls(now + 3000000, 5, times);
            var again := Transmit(c.key, (c.sent + 1) % 0x1_0000, SendFlag, msg);
            Unattended(sent, times).outs
            == Copies(Min(due, 5), again)
               + (if due <= 5 then [] else [Done(c.key, Some(msg), false)] + Copies(due - 6, Done(c.key, None, false)))
  {
    NeverAcknowledged(SendStep(c, msg, now).conn, times);
  }
}
