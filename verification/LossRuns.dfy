/** What the two loss estimates of a connection are, over every history, in terms of what has
    arrived: weights and thresholds are written out. */
module LossRuns {

  import opened Common
  import opened Seqno
  import opened PacketTransport
  import opened TransportRuns
  import opened ConnectionRuns
  import E = LossEwma
  import A = LossAli

  // ---------- the moving average ----------

  /** A restart has come that no closing epoch has answered yet; opening does not answer it. */
  predicate Pending(key: Key, hs: Past<Local>) {
    !Blank(hs) &&
    (if hs.last.Restarted? then After(key, hs.past).Some?
     else !Closes(After(key, hs.past), hs.last) && Pending(key, hs.past))
  }

  function Share(received: int, steps: int): (r: real) {
    if steps == 0 then 0.0 else received as real / steps as real
  }

  /** What the last event, which closes an epoch, samples: the packets received in the epoch
      over the way from its first number. */
  function Sample(key: Key, hs: Past<Local>): (r: real)
    requires hs != Nothing && hs.last.Arrived? && EpochStart(key, hs.past).Some?
  {
    var start := EpochStart(key, hs.past);
    Share(ReceivedSince(start, After(key, hs)), Diff(hs.last.seqno, start.value.last))
  }

  /** When the current epoch began. */
  function EpochTime(key: Key, hs: Past<Local>): (r: nat) {
    if hs == Nothing then 0
    else if Opens(After(key, hs.past), hs.last) || Closes(After(key, hs.past), hs.last) then hs.last.now
    else EpochTime(key, hs.past)
  }

  /** The estimator's idea of where and when its epoch began is right. */
  predicate Began(start: Option<Conn>, time: nat, c: Option<Conn>) {
    c.Some? && c.value.ewma.updateTime >= 1000000 ==>
      start.Some? && start.value.last == c.value.ewma.updateSeqno && time == c.value.ewma.updateTime
  }

  lemma {:induction false} EpochBegan(key: Key, hs: Past<Local>)
    ensures Began(EpochStart(key, hs), EpochTime(key, hs), After(key, hs))
  {
    if hs != Nothing {
      var c := After(key, hs.past);
      EpochBegan(key, hs.past);
      if Accepts(c, hs.last) {
        Taken(key, c.value, hs.last);
      } else if !hs.last.Deleted? {
        Untouched(key, c, hs.last);
      }
    }
  }

  lemma ClosingHasStart(key: Key, hs: Past<Local>)
    requires hs != Nothing && Closes(After(key, hs.past), hs.last)
    ensures hs.last.Arrived? && EpochStart(key, hs.past).Some?
  {
    EpochBegan(key, hs.past);
  }

  /** The samples that count towards the average, oldest first: those since the first epoch
      opened or, after a restart, since the next epoch closed. */
  function Samples(key: Key, hs: Past<Local>): (r: seq<real>) {
    if Blank(hs) || hs.last.Restarted? then []
    else if Opens(After(key, hs.past), hs.last) then [Share(1, hs.last.seqno)]
    else if Closes(After(key, hs.past), hs.last) then
      ClosingHasStart(key, hs);
      (if Pending(key, hs.past) then [] else Samples(key, hs.past)) + [Sample(key, hs)]
    else Samples(key, hs.past)
  }

  /** 0.9 to the n. */
  function Decay(n: nat): (r: real) {
    if n == 0 then 1.0 else 0.9 * Decay(n - 1)
  }

  /** The terms of samples 1 to n. */
  function Later(xs: seq<real>, n: nat): (r: real)
    requires n < |xs|
  {
    if n == 0 then 0.0 else Later(xs, n - 1) + 0.1 * Decay(|xs| - 1 - n) * xs[n]
  }

  /** The first sample weighs 0.9 for each that followed, and any other 0.1 times that. */
  function Blend(xs: seq<real>): (r: real) {
    if xs == [] then 1.0 else Decay(|xs| - 1) * xs[0] + Later(xs, |xs| - 1)
  }

  lemma Regroup(decay: real, x: real)
    ensures 0.1 * (0.9 * decay) * x == 0.9 * (0.1 * decay * x)
  {
  }

  lemma {:induction false} LaterDecays(xs: seq<real>, d: real, n: nat)
    requires n < |xs|
    ensures Later(xs + [d], n) == 0.9 * Later(xs, n)
  {
    if n > 0 {
      LaterDecays(xs, d, n - 1);
      assert (xs + [d])[n] == xs[n] && Decay(|xs| - n) == 0.9 * Decay(|xs| - 1 - n);
      Regroup(Decay(|xs| - 1 - n), xs[n]);
    }
  }

  lemma BlendOneMore(xs: seq<real>, d: real)
    ensures Blend(xs + [d]) == if xs == [] then d else 0.1 * d + 0.9 * Blend(xs)
  {
    var all, n := xs + [d], |xs|;
    if xs == [] {
      assert all == [d] && Later([d], 0) == 0.0;
    } else {
      LaterDecays(xs, d, n - 1);
      assert Later(all, n) == Later(all, n - 1) + 0.1 * Decay(0) * d;
      assert Decay(n) * xs[0] == 0.9 * (Decay(n - 1) * xs[0]);
    }
  }

  predicate AverageIs(c: Option<Conn>, samples: seq<real>, pending: bool) {
    match c
    case None => samples == [] && !pending
    case Some(c) =>
      && c.ewma.davg == Blend(samples) && c.ewma.lavg == 1.0 - c.ewma.davg && c.ewma.restart == pending
      && (samples != [] ==> c.ewma.di == samples[|samples| - 1])
      && (samples == [] ==> pending || c.ewma.updateTime < 1000000)
  }

  lemma OpeningAverage(key: Key, c: Conn, e: Local, samples: seq<real>, pending: bool)
    requires AverageIs(Some(c), samples, pending) && Opens(Some(c), e)
    ensures AverageIs(LocalStep(key, Some(c), e).conn, [Share(1, e.seqno)], pending)
  {
    Taken(key, c, e);
    BlendOneMore([], Share(1, e.seqno));
    assert [] + [Share(1, e.seqno)] == [Share(1, e.seqno)];
  }

  lemma ClosingSample(l: E.Ewma, last: Word, seqno: Word, now: nat)
    requires Newer(seqno, last) && l.updateTime >= 1000000
    requires Diff(seqno, l.updateSeqno) >= 10 || (now - l.updateTime) / 1000000 > 10
    ensures var m := E.EwmaStep(l, last, seqno, now);
            && m.di == Share(l.received + 1, Diff(seqno, l.updateSeqno)) && m.lavg == 1.0 - m.davg && !m.restart
            && m.davg == if l.restart then m.di else 0.1 * m.di + 0.9 * l.davg
  {
  }

  lemma ClosingAverage(key: Key, c: Conn, e: Local, samples: seq<real>, pending: bool, start: Option<Conn>)
    requires AverageIs(Some(c), samples, pending) && Closes(Some(c), e) && start.Some?
    requires start.value.last == c.ewma.updateSeqno && c.ewma.received == c.received - start.value.received
    ensures var d := LocalStep(key, Some(c), e).conn;
            var sample := Share(ReceivedSince(start, d), Diff(e.seqno, start.value.last));
            AverageIs(d, (if pending then [] else samples) + [sample], false)
  {
    Taken(key, c, e);
    ClosingSample(c.ewma, c.last, e.seqno, e.now);
    BlendOneMore(if pending then [] else samples, Share(c.ewma.received + 1, Diff(e.seqno, c.ewma.updateSeqno)));
  }

  lemma OtherwiseSameAverage(key: Key, c: Option<Conn>, e: Local, samples: seq<real>, pending: bool)
    requires AverageIs(c, samples, pending) && !Opens(c, e) && !Closes(c, e) && !e.Restarted? && !e.Deleted?
    ensures AverageIs(LocalStep(key, c, e).conn, samples, pending)
  {
  }

  /** In every history Davg is the exponentially weighted mean of the samples, with weight
      0.1 for a new one, and 1 without any; Lavg is what it leaves of 1, and Di the last. */
  lemma {:induction false} AverageOfSamples(key: Key, hs: Past<Local>)
    ensures AverageIs(After(key, hs), Samples(key, hs), Pending(key, hs))
  {
    if hs != Nothing {
      var c, e := After(key, hs.past), hs.last;
      AverageOfSamples(key, hs.past);
      if Opens(c, e) {
        OpeningAverage(key, c.value, e, Samples(key, hs.past), Pending(key, hs.past));
      } else if Closes(c, e) {
        EpochBegan(key, hs.past);
        EpochReceives(key, hs.past);
        ClosingAverage(key, c.value, e, Samples(key, hs.past), Pending(key, hs.past), EpochStart(key, hs.past));
      } else if !e.Restarted? && !e.Deleted? {
        OtherwiseSameAverage(key, c, e, Samples(key, hs.past), Pending(key, hs.past));
      }
    }
  }

  // ---------- the mean of the loss intervals ----------

  const WEIGHTS: seq<real> := [1.0, 1.0, 1.0, 1.0, 0.8, 0.6, 0.4, 0.2]

  function Dot(ws: seq<real>, xs: seq<nat>): (r: real)
    requires |xs| <= |ws|
  {
    if xs == [] then 0.0 else ws[0] * xs[0] as real + Dot(ws[1..], xs[1..])
  }

  function Sum(ws: seq<real>): (r: real) {
    if ws == [] then 0.0 else ws[0] + Sum(ws[1..])
  }

  lemma {:induction false} DotSnoc(ws: seq<real>, xs: seq<nat>, x: nat)
    requires |xs| < |ws|
    ensures Dot(ws, xs + [x]) == Dot(ws, xs) + ws[|xs|] * x as real
    decreases |xs|
  {
    if xs == [] {
      assert (xs + [x])[1..] == [];
    } else {
      DotSnoc(ws[1..], xs[1..], x);
      assert (xs + [x])[1..] == xs[1..] + [x];
    }
  }

  lemma {:induction false} SumSnoc(ws: seq<real>, w: real)
    ensures Sum(ws + [w]) == Sum(ws) + w
  {
    if ws == [] {
      assert (ws + [w])[1..] == [];
    } else {
      SumSnoc(ws[1..], w);
      assert (ws + [w])[1..] == ws[1..] + [w];
    }
  }

  lemma {:induction false} WeightedIsDot(xs: seq<nat>, n: nat)
    requires n <= |xs| <= 8
    ensures A.Weighted(xs, n) == Dot(WEIGHTS, xs[..n]) && A.Weights(n) == Sum(WEIGHTS[..n])
  {
    if n > 0 {
      WeightedIsDot(xs, n - 1);
      assert xs[..n] == xs[..n - 1] + [xs[n - 1]] && WEIGHTS[..n] == WEIGHTS[..n - 1] + [WEIGHTS[n - 1]];
      DotSnoc(WEIGHTS, xs[..n - 1], xs[n - 1]);
      SumSnoc(WEIGHTS[..n - 1], WEIGHTS[n - 1]);
      assert A.Weight(n - 1) == WEIGHTS[n - 1];
    }
  }

  /** The weighted mean of up to eight values. */
  function MeanOf(xs: seq<nat>): (r: real)
    requires 0 < |xs| <= 8
  {
    WeightedIsDot(xs, |xs|);
    Dot(WEIGHTS, xs) / Sum(WEIGHTS[..|xs|])
  }

  lemma MeanIs(xs: seq<nat>)
    requires 0 < |xs| <= 8
    ensures A.Mean(xs) == MeanOf(xs)
  {
    WeightedIsDot(xs, |xs|);
    assert xs[..|xs|] == xs;
  }

  /** The intervals moved on by one, to the walk that is still open. */
  function MovedOn(recent: seq<nat>, walk: nat): (r: seq<nat>)
    requires recent != []
    ensures |r| == |recent|
  {
    [walk] + recent[..|recent| - 1]
  }

  /** The larger of the mean over recent and, when there are two or more, the mean over them
      moved on. */
  predicate IsEstimate(savg: real, recent: seq<nat>, walk: nat)
    requires 0 < |recent| <= 8
  {
    && savg >= MeanOf(recent)
    && if |recent| == 1 then savg == MeanOf(recent)
       else savg >= MeanOf(MovedOn(recent, walk))
            && (savg == MeanOf(recent) || savg == MeanOf(MovedOn(recent, walk)))
  }

  lemma AverageIsEstimate(window: seq<nat>, walk: nat)
    requires window != [] && A.WindowOk(window)
    ensures IsEstimate(A.Average(window, walk), window, walk)
  {
    MeanIs(window);
    A.MeanBounds(window, 2, 20);
    MeanIs(MovedOn(window, walk));
  }

  /** The estimate has been made with the newest number. */
  predicate UpToDate(c: Option<Conn>) {
    c.Some? && c.value.ali.window != [] ==>
      && c.value.ali.savg == A.Average(c.value.ali.window, Diff(c.value.last, c.value.ali.lastLoss))
      && c.value.ali.lavg == 1.0 / c.value.ali.savg
  }

  lemma StepUpToDate(key: Key, c: Option<Conn>, e: Local)
    requires UpToDate(c)
    ensures UpToDate(LocalStep(key, c, e).conn)
  {
  }

  lemma {:induction false} StaysUpToDate(key: Key, hs: Past<Local>)
    ensures UpToDate(After(key, hs))
  {
    if hs != Nothing {
      StaysUpToDate(key, hs.past);
      StepUpToDate(key, After(key, hs.past), hs.last);
    }
  }

  /** The eight most recent intervals, and how far the newest number is past the last loss. */
  function RecentIntervals(hs: Past<Local>): (r: seq<nat>)
    ensures |r| <= 8 && (r == [] <==> Intervals(hs) == [])
  {
    Intervals(hs)[..Min(8, |Intervals(hs)|)]
  }

  function SinceLoss(hs: Past<Local>): (n: nat)
    requires Newest(hs).Some?
  {
    Diff(Newest(hs).value, LastLoss(hs))
  }

  /** In every history with a loss, Savg is the larger of the two means, Lavg its reciprocal,
      and both come from the events alone. */
  lemma EstimateOfIntervals(key: Key, hs: Past<Local>)
    requires After(key, hs).Some? && Intervals(hs) != []
    ensures Newest(hs).Some?
    ensures var a := After(key, hs).value.ali;
            IsEstimate(a.savg, RecentIntervals(hs), SinceLoss(hs)) && a.savg >= 2.0 && a.lavg == 1.0 / a.savg
  {
    NewestIsLast(key, hs);
    RingHoldsRecent(key, hs);
    StaysUpToDate(key, hs);
    AverageIsEstimate(RecentIntervals(hs), SinceLoss(hs));
  }

  // ---------- while packets come in order ----------

  /** The last event brings the number right after the newest. */
  predicate InOrder(hs: Past<Local>) {
    && hs != Nothing && hs.last.Arrived? && Newest(hs.past).Some? && InRange(Newest(hs.past).value)
    && hs.last.seqno == Next(Newest(hs.past).value)
  }

  lemma InOrderAddsNothing(hs: Past<Local>)
    requires InOrder(hs)
    ensures Newest(hs) == Some(hs.last.seqno)
    ensures Intervals(hs) == Intervals(hs.past) && LastLoss(hs) == LastLoss(hs.past)
  {
    NewerInRange(hs.last.seqno, Newest(hs.past).value);
  }

  lemma WalkGrows(newest: Word, lastLoss: Word)
    requires InRange(newest) && InRange(lastLoss)
    ensures if Next(newest) == lastLoss then Diff(newest, lastLoss) == 49999 && Diff(Next(newest), lastLoss) == 0
            else Diff(Next(newest), lastLoss) == Diff(newest, lastLoss) + 1
  {
  }

  lemma {:induction false} WeightsAtMost(n: nat)
    ensures A.Weights(n) <= n as real
  {
    if n > 0 { WeightsAtMost(n - 1); }
  }

  lemma SumBounds(n: nat)
    requires 0 < n <= 8
    ensures 0.0 < Sum(WEIGHTS[..n]) <= 8.0
  {
    WeightedIsDot(seq(8, _ => 0), n);
    WeightsAtMost(n);
  }

  lemma Quotient(a: real, w: real, s: real)
    requires s > 0.0
    ensures (w + a) / s == a / s + w / s
  {
  }

  /** The open walk enters its mean with weight 1. */
  lemma MovedOnMean(recent: seq<nat>, walk: nat)
    requires 0 < |recent| <= 8
    ensures Sum(WEIGHTS[..|recent|]) > 0.0
    ensures MeanOf(MovedOn(recent, walk)) == MeanOf(MovedOn(recent, 0)) + walk as real / Sum(WEIGHTS[..|recent|])
  {
    var rest := recent[..|recent| - 1];
    SumBounds(|recent|);
    assert MovedOn(recent, walk)[1..] == rest && MovedOn(recent, 0)[1..] == rest;
    assert Dot(WEIGHTS, MovedOn(recent, walk)) == walk as real + Dot(WEIGHTS[1..], rest);
    assert Dot(WEIGHTS, MovedOn(recent, 0)) == Dot(WEIGHTS[1..], rest);
    Quotient(Dot(WEIGHTS[1..], rest), walk as real, Sum(WEIGHTS[..|recent|]));
  }

  lemma NoLess(a: real, b: real, s: real)
    requires s > 0.0 && a >= b * s
    ensures a / s >= b
  {
    Quotient(a - b * s, b * s, s);
    assert b * s / s == b && (a - b * s) / s >= 0.0;
  }

  lemma QuotientGrows(v: nat, w: nat, s: real)
    requires v <= w && 0.0 < s <= 8.0
    ensures v as real / s <= w as real / s && (w == 49999 ==> w as real / s >= 6000.0)
  {
    assert v as real / s * s == v as real;
    NoLess(w as real, v as real / s, s);
    if w == 49999 { NoLess(w as real, 6000.0, s); }
  }

  lemma LongerWalk(savg: real, savg': real, recent: seq<nat>, walk: nat, walk': nat)
    requires 0 < |recent| <= 8 && IsEstimate(savg, recent, walk) && IsEstimate(savg', recent, walk') && walk <= walk'
    ensures savg <= savg'
  {
    MovedOnMean(recent, walk);
    MovedOnMean(recent, walk');
    SumBounds(|recent|);
    QuotientGrows(walk, walk', Sum(WEIGHTS[..|recent|]));
  }

  lemma WalkStartsAgain(savg: real, savg': real, recent: seq<nat>)
    requires 0 < |recent| <= 8 && A.Between(recent, 2, 20)
    requires IsEstimate(savg, recent, 49999) && IsEstimate(savg', recent, 0)
    ensures savg <= savg' <==> |recent| == 1
  {
    MovedOnMean(recent, 49999);
    SumBounds(|recent|);
    QuotientGrows(0, 49999, Sum(WEIGHTS[..|recent|]));
    MeanIs(recent);
    MeanIs(MovedOn(recent, 0));
    A.MeanBounds(recent, 2, 20);
    A.MeanBounds(MovedOn(recent, 0), 0, 20);
  }

  lemma Reciprocals(a: real, b: real)
    requires a >= 2.0 && b >= 2.0
    ensures 1.0 / b <= 1.0 / a <==> a <= b
  {
    assert 1.0 / a * a == 1.0 && 1.0 / b * b == 1.0;
    assert 1.0 / a - 1.0 / b == (b - a) / (a * b);
  }

  function LavgOf(c: Option<Conn>): (r: real) {
    if c.Some? then c.value.ali.lavg else 0.0
  }

  lemma SameIntervals(key: Key, hs: Past<Local>)
    requires InOrder(hs) && Intervals(hs.past) != [] && InRange(LastLoss(hs.past))
    ensures LavgOf(After(key, hs)) <= LavgOf(After(key, hs.past)) <==>
              hs.last.seqno != LastLoss(hs.past) || |Intervals(hs.past)| <= 1
  {
    var past, recent := hs.past, RecentIntervals(hs.past);
    InOrderAddsNothing(hs);
    NewestIsLast(key, past);
    NewestIsLast(key, hs);
    EstimateOfIntervals(key, past);
    EstimateOfIntervals(key, hs);
    RingHoldsRecent(key, past);
    var a, b := After(key, past).value.ali, After(key, hs).value.ali;
    WalkGrows(Newest(past).value, LastLoss(past));
    if hs.last.seqno == LastLoss(past) {
      WalkStartsAgain(a.savg, b.savg, recent);
    } else {
      LongerWalk(a.savg, b.savg, recent, SinceLoss(past), SinceLoss(hs));
    }
    Reciprocals(a.savg, b.savg);
  }

  /** A packet that comes in order does not raise Lavg, unless the numbers have come all the
      way round to the last one lost and there are two intervals or more: then it does. */
  lemma InOrderNeverRaises(key: Key, hs: Past<Local>)
    requires InOrder(hs) && (Intervals(hs.past) != [] ==> InRange(LastLoss(hs.past)))
    ensures LavgOf(After(key, hs)) <= LavgOf(After(key, hs.past)) <==>
              hs.last.seqno != LastLoss(hs.past) || |Intervals(hs.past)| <= 1
  {
    if Intervals(hs.past) == [] {
      InOrderAddsNothing(hs);
      RingHoldsRecent(key, hs.past);
      RingHoldsRecent(key, hs);
    } else {
      SameIntervals(key, hs);
    }
  }

  /** After 1, 3 and 5, k packets in order. */
  function FromFive(k: nat): (r: Past<Local>) {
    if k == 0 then Then(Then(Then(Nothing, Best(1, 0)), Best(3, 0)), Best(5, 0))
    else Then(FromFive(k - 1), Best(Walk(5, k), 0))
  }

  lemma WalkNext(s: Word, k: nat)
    ensures Walk(s, k + 1) == Next(Walk(s, k))
  {
    WalkJoins(s, k, 1);
    assert Walk(Walk(s, k), 1) == Next(Walk(s, k));
  }

  lemma TwoLosses()
    ensures var hs := FromFive(0);
            Newest(hs) == Some(5) && LastLoss(hs) == 4 && Intervals(hs) == [2, 2]
  {
    var h1 := Then(Nothing, Best(1, 0));
    var h3 := Then(h1, Best(3, 0));
    assert Newest(h1) == Some(1) && Intervals(h1) == [] && LastLoss(h1) == 0;
    assert SawGap(h3) && Newest(h3) == Some(3) && LastLoss(h3) == 2 && Intervals(h3) == [2] + [];
    assert SawGap(Then(h3, Best(5, 0)));
  }

  lemma {:induction false} FromFiveIs(k: nat)
    ensures Newest(FromFive(k)) == Some(Walk(5, k)) && LastLoss(FromFive(k)) == 4 && Intervals(FromFive(k)) == [2, 2]
    ensures k > 0 ==> InOrder(FromFive(k))
  {
    if k == 0 {
      TwoLosses();
      assert Walk(5, 0) == 5;
    } else {
      FromFiveIs(k - 1);
      WalkNext(5, k - 1);
      InOrderAddsNothing(FromFive(k));
    }
  }

  /** A run in which that happens: with the 49999th packet in order after 1, 3 and 5 Lavg
      rises, though nothing has been lost since. */
  lemma RisesAfterFullTurn(key: Key, k: nat)
    requires k == 49999
    ensures InOrder(FromFive(k)) && LavgOf(After(key, FromFive(k))) > LavgOf(After(key, FromFive(k).past))
  {
    FromFiveIs(k);
    FromFiveIs(k - 1);
    DiffIsLeastWalk(4, 5);
    InOrderNeverRaises(key, FromFive(k));
  }
}
