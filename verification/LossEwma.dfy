/** The first loss estimator: a moving average of the delivery rate over epochs. */
module LossEwma {

  import opened Common
  import opened Seqno

  const EPOCH_WINDOW: nat := 10
  const EPOCH_SECONDS: nat := 10
  const ALPHA: real := 0.10

  /** received counts the packets of the current epoch; times are in microseconds. */
  datatype Ewma = Ewma(di: real, davg: real, lavg: real, updateTime: nat, updateSeqno: Word,
                       received: nat, restart: bool)

  const START: Ewma := Ewma(1.0, 1.0, 0.0, 0, 0, 0, false)

  /** The program divides doubles; a zero divisor, which gives it infinity, is given 0 here
      and lies outside every property below. */
  function Ratio(n: nat, d: nat): (r: real)
    ensures 1 <= n <= d ==> 0.0 < r <= 1.0 && (r == 1.0 <==> n == d)
  {
    if d == 0 then 0.0 else n as real / d as real
  }

  /** No epoch has been closed yet. */
  predicate Unset(time: nat) {
    time / 1000000 == 0
  }

  function Seconds(earlier: nat, later: nat): (r: nat) {
    if later < earlier then 0 else (later - earlier) / 1000 / 1000
  }

  predicate EpochEnds(l: Ewma, seqno: Word, now: nat) {
    Diff(seqno, l.updateSeqno) >= EPOCH_WINDOW || Seconds(l.updateTime, now) > EPOCH_SECONDS
  }

  function EwmaStep(l: Ewma, last: Word, seqno: Word, now: nat): (r: Ewma) {
    if !Newer(seqno, last) then l
    else if Unset(l.updateTime) then
      var di := Ratio(1, seqno);
      l.(di := di, davg := di, lavg := 1.0 - di, updateTime := now, updateSeqno := seqno, received := 0)
    else if EpochEnds(l, seqno, now) then
      var di := Ratio(l.received + 1, Diff(seqno, l.updateSeqno));
      var davg := if l.restart then di else ALPHA * di + (1.0 - ALPHA) * l.davg;
      Ewma(di, davg, 1.0 - davg, now, seqno, 0, false)
    else l.(received := l.received + 1)
  }

  function EwmaRestart(l: Ewma): (r: Ewma) {
    l.(davg := 1.0, lavg := 0.0, restart := true)
  }

  predicate RatesOk(l: Ewma) {
    0.0 < l.di <= 1.0 && 0.0 < l.davg <= 1.0 && l.lavg == 1.0 - l.davg
  }

  /** last is the newest number received.  Within an epoch there are never more packets than
      steps since it began. */
  predicate EwmaOk(l: Ewma, last: Word) {
    && RatesOk(l)
    && (!Unset(l.updateTime) ==> l.received <= Diff(last, l.updateSeqno) < EPOCH_WINDOW)
  }

  /** The sample that a number gives, if it gives one, counts no more packets than steps, and
      is not divided by 0. */
  predicate Fair(l: Ewma, seqno: Word, now: nat) {
    if Unset(l.updateTime) then seqno != 0
    else EpochEnds(l, seqno, now) ==> l.received + 1 <= Diff(seqno, l.updateSeqno)
  }

  /** The numbers after which the rates and the count both stay sound.  The first must not be 0, which is
      divided by; and a number exactly MAX_SEQNO below the last one looks no further from
      the start of the epoch than that did, so it needs a packet lost in the epoch to make
      up for it. */
  predicate Sound(l: Ewma, last: Word, seqno: Word) {
    if Unset(l.updateTime) then seqno != 0
    else seqno + MAX_SEQNO != last || l.received < Diff(last, l.updateSeqno)
  }

  lemma AdvancesUp(last: Word, start: Word, seqno: Word)
    requires seqno > last && Newer(seqno, last) && Diff(last, start) < EPOCH_WINDOW
    ensures Diff(seqno, start) > Diff(last, start)
  {
    if start > last {
      assert start - last > MAX_SEQNO - EPOCH_WINDOW;
    }
  }

  lemma AdvancesAcross(last: Word, start: Word, seqno: Word)
    requires seqno < last && Newer(seqno, last) && Diff(last, start) < EPOCH_WINDOW
    ensures if seqno + MAX_SEQNO == last then Diff(seqno, start) == Diff(last, start)
            else Diff(seqno, start) > Diff(last, start)
  {
    assert (MAX_SEQNO - last) % WORD == if last <= MAX_SEQNO then MAX_SEQNO - last else MAX_SEQNO - last + WORD;
  }

  lemma EpochAdvances(last: Word, start: Word, seqno: Word)
    requires Newer(seqno, last) && Diff(last, start) < EPOCH_WINDOW
    ensures if seqno + MAX_SEQNO == last then Diff(seqno, start) == Diff(last, start)
            else Diff(seqno, start) > Diff(last, start)
  {
    if seqno > last { AdvancesUp(last, start, seqno); } else { AdvancesAcross(last, start, seqno); }
  }

  lemma Averaged(d: real, avg: real)
    requires 0.0 < d <= 1.0 && 0.0 < avg <= 1.0
    ensures 0.0 < ALPHA * d + (1.0 - ALPHA) * avg <= 1.0
    ensures ALPHA * d + (1.0 - ALPHA) * avg == 1.0 <==> d == 1.0 && avg == 1.0
  {
  }

  /** A sample is in (0,1] exactly when it counts no more packets than steps. */
  lemma SampleInBounds(n: nat, d: nat)
    requires n > 0
    ensures 0.0 < Ratio(n, d) <= 1.0 <==> n <= d
  {
    if 0 < d < n {
      assert Ratio(n, d) * d as real == n as real;
    }
  }

  /** Whatever the 16-bit number, and whatever the state of the epoch, an update leaves the
      rates in bounds exactly when the number is fair. */
  lemma EwmaStepKeepsRates(l: Ewma, last: Word, seqno: Word, now: nat)
    requires RatesOk(l) && Newer(seqno, last)
    ensures RatesOk(EwmaStep(l, last, seqno, now)) <==> Fair(l, seqno, now)
  {
    if Unset(l.updateTime) {
      SampleInBounds(1, seqno);
    } else {
      var n, d := l.received + 1, Diff(seqno, l.updateSeqno);
      SampleInBounds(n, d);
      if n <= d { Averaged(Ratio(n, d), l.davg); }
    }
  }

  /** The caller moves last on to seqno after the update, not before.  The bounds are kept,
      whatever the 16-bit number, exactly when it is sound. */
  lemma EwmaStepKeepsOk(l: Ewma, last: Word, seqno: Word, now: nat)
    requires EwmaOk(l, last) && Newer(seqno, last)
    ensures EwmaOk(EwmaStep(l, last, seqno, now), seqno) <==> Sound(l, last, seqno)
  {
    if Unset(l.updateTime) {
      SampleInBounds(1, seqno);
    } else {
      EpochAdvances(last, l.updateSeqno, seqno);
      var n, d := l.received + 1, Diff(seqno, l.updateSeqno);
      SampleInBounds(n, d);
      if n <= d { Averaged(Ratio(n, d), l.davg); }
    }
  }

  /** Three packets after which the delivery rate is above 1: the epoch opens at 65520, and
      after 65521 a long silence ends with 15521, which counts as one step past the start. */
  lemma RateAboveOne()
    ensures var l1 := EwmaStep(START, 65519, 65520, 1000000);
            var l2 := EwmaStep(l1, 65520, 65521, 2000000);
            var l3 := EwmaStep(l2, 65521, 15521, 21000000);
            && Newer(65520, 65519) && Newer(65521, 65520) && Newer(15521, 65521)
            && EwmaOk(l2, 65521) && !Sound(l2, 65521, 15521) && !Fair(l2, 15521, 21000000) && l3.di == 2.0
  {
    var l2 := EwmaStep(EwmaStep(START, 65519, 65520, 1000000), 65520, 65521, 2000000);
    assert l2.received == 1 && l2.updateSeqno == 65520 && Diff(15521, 65520) == 1;
  }

  /** A second later the same number ends no epoch: it is not sound, since the count is now
      ahead of the steps, but it is fair, and 15523 puts the count right again. */
  lemma UnsoundYetFair()
    ensures var l1 := EwmaStep(START, 65519, 65520, 1000000);
            var l2 := EwmaStep(l1, 65520, 65521, 2000000);
            var l3 := EwmaStep(l2, 65521, 15521, 3000000);
            var l4 := EwmaStep(l3, 15521, 15523, 4000000);
            && Newer(15521, 65521) && Newer(15523, 15521)
            && !Sound(l2, 65521, 15521) && Fair(l2, 15521, 3000000) && !EwmaOk(l3, 15521)
            && (l2.di, l2.davg) == (l3.di, l3.davg) == (l4.di, l4.davg) && EwmaOk(l4, 15523)
  {
    var l2 := EwmaStep(EwmaStep(START, 65519, 65520, 1000000), 65520, 65521, 2000000);
    assert l2.received == 1 && l2.updateSeqno == 65520 && Diff(15521, 65520) == 1 && Diff(15523, 65520) == 3;
  }

  /** Right after the epoch opened, such a number is no step past its start, and the
      program divides by zero. */
  lemma ZeroSteps()
    ensures var l := EwmaStep(START, 65529, 65530, 1000000);
            && Newer(65530, 65529) && Newer(15530, 65530) && !Sound(l, 65530, 15530) && !Fair(l, 15530, 13000000)
            && EpochEnds(l, 15530, 13000000) && Diff(15530, l.updateSeqno) == 0
  {
    assert EwmaStep(START, 65529, 65530, 1000000).updateSeqno == 65530;
  }

  /** The epoch begins, and stands, at numbers in the range. */
  predicate EpochInRange(l: Ewma, last: Word) {
    !Unset(l.updateTime) ==> InRange(l.updateSeqno) && InRange(last)
  }

  lemma EpochGrows(l: Ewma, last: Word, seqno: Word)
    requires EwmaOk(l, last) && EpochInRange(l, last) && !Unset(l.updateTime) && InRange(seqno) && Newer(seqno, last)
    ensures Diff(seqno, l.updateSeqno) == Diff(last, l.updateSeqno) + Diff(seqno, last)
    ensures 1 <= l.received + 1 <= Diff(seqno, l.updateSeqno)
  {
    NewerInRange(seqno, last);
    DiffAdds(seqno, last, l.updateSeqno);
  }

  class LossEwma {
    var di: real
    var davg: real
    var lavg: real
    var updateTime: nat
    var updateSeqno: Word
    var received: nat
    var restart: bool

    ghost function State(): Ewma
      reads this
    {
      Ewma(di, davg, lavg, updateTime, updateSeqno, received, restart)
    }

    constructor ()
      ensures State() == START
    {
      di, davg, lavg := 1.0, 1.0, 0.0;
      updateTime, updateSeqno, received, restart := 0, 0, 0, false;
    }

    method RestartAveraging()
      modifies this
      ensures State() == EwmaRestart(old(State()))
    {
      davg, lavg, restart := 1.0, 0.0, true;
    }

    method Update(last: Word, seqno: Word, now: nat)
      modifies this
      ensures State() == EwmaStep(old(State()), last, seqno, now)
    {
      if Cmp(seqno, last) <= 0 { return; }
      received := received + 1;
      if Unset(updateTime) {
        di := Ratio(1, seqno);
        davg := di;
        lavg := 1.0 - davg;
        updateTime, updateSeqno, received := now, seqno, 0;
      } else {
        var steps := Diff(seqno, updateSeqno);
        if steps >= EPOCH_WINDOW || Seconds(updateTime, now) > EPOCH_SECONDS {
          if received > 0 {
            di := Ratio(received, steps);
            if restart {
              davg, restart := di, false;
            } else {
              davg := ALPHA * di + (1.0 - ALPHA) * davg;
            }
            lavg := 1.0 - davg;
          }
          updateTime, updateSeqno, received := now, seqno, 0;
        }
      }
    }
  }
}
