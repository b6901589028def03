/** The second loss estimator: the weighted mean of the most recent loss intervals. */
module LossAli {

  import opened Common
  import opened Seqno

  const N: nat := 8

  /** window holds the intervals, most recent first. */
  datatype Ali = Ali(lastLoss: Word, window: seq<nat>, savg: real, lavg: real)

  const START: Ali := Ali(0, [], 0.0, 0.0)

  function Weight(k: nat): (r: real)
    ensures 0.0 < r <= 1.0
  {
    if k < 4 then 1.0 else if k == 4 then 0.8 else if k == 5 then 0.6 else if k == 6 then 0.4 else 0.2
  }

  function Weights(n: nat): (r: real)
    ensures n > 0 ==> r > 0.0
  {
    if n == 0 then 0.0 else Weights(n - 1) + Weight(n - 1)
  }

  function Weighted(xs: seq<nat>, n: nat): (r: real)
    requires n <= |xs|
  {
    if n == 0 then 0.0 else Weighted(xs, n - 1) + Weight(n - 1) * xs[n - 1] as real
  }

  function Mean(xs: seq<nat>): (r: real)
    requires xs != []
  {
    Weighted(xs, |xs|) / Weights(|xs|)
  }

  predicate Between(xs: seq<nat>, lo: nat, hi: nat) {
    forall i :: 0 <= i < |xs| ==> lo <= xs[i] <= hi
  }

  predicate Bounded(sum: real, weight: real, lo: nat, hi: nat) {
    lo as real * weight <= sum <= hi as real * weight
  }

  lemma OneMore(sum: real, weight: real, w: real, x: nat, lo: nat, hi: nat)
    requires w > 0.0 && lo <= x <= hi && Bounded(sum, weight, lo, hi)
    ensures Bounded(sum + w * x as real, weight + w, lo, hi)
  {
    NotNegative(w, x as real - lo as real);
    NotNegative(w, hi as real - x as real);
    assert lo as real * (weight + w) == lo as real * weight + w * lo as real;
    assert hi as real * (weight + w) == hi as real * weight + w * hi as real;
  }

  lemma NotNegative(a: real, b: real)
    requires a >= 0.0 && b >= 0.0
    ensures a * b >= 0.0
  {
  }

  lemma {:induction false} WeightedBounds(xs: seq<nat>, n: nat, lo: nat, hi: nat)
    requires n <= |xs| && Between(xs, lo, hi)
    ensures Bounded(Weighted(xs, n), Weights(n), lo, hi)
  {
    if n > 0 {
      WeightedBounds(xs, n - 1, lo, hi);
      OneMore(Weighted(xs, n - 1), Weights(n - 1), Weight(n - 1), xs[n - 1], lo, hi);
    }
  }

  lemma DivideBounds(sum: real, weight: real, lo: real, hi: real)
    requires weight > 0.0 && lo * weight <= sum <= hi * weight
    ensures lo <= sum / weight <= hi
  {
    assert sum / weight * weight == sum;
  }

  /** A weighted mean lies between the least and the greatest of its values. */
  lemma MeanBounds(xs: seq<nat>, lo: nat, hi: nat)
    requires xs != [] && Between(xs, lo, hi)
    ensures lo as real <= Mean(xs) <= hi as real
  {
    WeightedBounds(xs, |xs|, lo, hi);
    DivideBounds(Weighted(xs, |xs|), Weights(|xs|), lo as real, hi as real);
  }

  lemma Reciprocal(x: real)
    requires x >= 2.0
    ensures 0.0 < 1.0 / x <= 0.5
  {
    assert 1.0 / x * x == 1.0;
  }

  /** The most recent n of a list. */
  function Recent(xs: seq<nat>, n: nat): (r: seq<nat>) {
    xs[..Min(n, |xs|)]
  }

  /** The interval that a newly seen loss closes. */
  function Interval(last: Word, lastLoss: Word): (r: nat)
    ensures 2 <= r <= 20
  {
    var steps := Diff(last, lastLoss) + 1;
    if lastLoss == 0 then
      if last == 0 then 2 else Min(steps, 10)
    else if steps < 2 then 2
    else Min(steps, 20)
  }

  /** The first interval is the number of the newest packet, one on and at most 10; any other
      is the way from the last number lost to the newest, one on, between 2 and 20. */
  lemma IntervalIsSpan(last: Word, lastLoss: Word, k: nat)
    requires InRange(last) && lastLoss <= MAX_SEQNO
    requires Walk(lastLoss, k) == last && forall j: nat :: j < k ==> Walk(lastLoss, j) != last
    ensures Interval(last, lastLoss)
         == if lastLoss == 0 then (if k < 9 then k + 1 else 10) else if k < 1 then 2 else if k < 19 then k + 1 else 20
  {
    DiffIsLeastWalk(last, lastLoss);
    assert k == Diff(last, lastLoss);
  }

  predicate WindowOk(window: seq<nat>) {
    |window| <= N && Between(window, 2, 20)
  }

  predicate AliOk(a: Ali) {
    && WindowOk(a.window)
    && (if a.window == [] then a.savg == 0.0 && a.lavg == 0.0
        else a.savg >= 2.0 && a.lavg == 1.0 / a.savg && 0.0 < a.lavg <= 0.5)
  }

  /** The mean of the window, or of the window moved on to the open interval s0 if that is
      larger. */
  function Average(window: seq<nat>, s0: nat): (r: real)
    requires window != [] && WindowOk(window)
    ensures r >= 2.0
  {
    MeanBounds(window, 2, 20);
    var closed := Mean(window);
    var open := if |window| > 1 then Mean([s0] + window[..|window| - 1]) else 0.0;
    if closed < open then open else closed
  }

  /** A gap before seqno puts a new interval in the window. */
  function NoteLoss(a: Ali, last: Word, seqno: Word): (r: Ali) {
    if Newer(seqno, Next(last)) then
      a.(lastLoss := Prev(seqno), window := Recent([Interval(last, a.lastLoss)] + a.window, N))
    else a
  }

  function AliStep(a: Ali, last: Word, seqno: Word): (r: Ali)
    requires AliOk(a)
    ensures AliOk(r)
  {
    var b := NoteLoss(a, last, seqno);
    if b.window == [] then b
    else
      var savg := Average(b.window, Diff(seqno, b.lastLoss));
      Reciprocal(savg);
      b.(savg := savg, lavg := 1.0 / savg)
  }

  function AliRestart(a: Ali): (r: Ali)
    ensures AliOk(r)
  {
    a.(window := [], savg := 0.0, lavg := 0.0)
  }

  /** The k-th most recent slot of the ring. */
  function Slot(head: int, k: nat): (r: nat)
    requires -1 <= head < N && k < N && (k > 0 ==> head >= 0)
    ensures r < N
  {
    (head + N - k) % N
  }

  predicate RingOk(ring: seq<nat>, head: int, len: nat) {
    |ring| == N && -1 <= head < N && len <= N && (head == -1 ==> len == 0)
  }

  /** What a ring holds, most recent first. */
  function Held(ring: seq<nat>, head: int, len: nat): (r: seq<nat>)
    requires RingOk(ring, head, len)
  {
    seq(len, k requires 0 <= k < len => ring[Slot(head, k)])
  }

  lemma SlotMoves(head: int, k: nat)
    requires 0 <= head < N && 0 < k < N
    ensures Slot((head + 1) % N, k) == Slot(head, k - 1) != (head + 1) % N
  {
  }

  lemma HeldAt(ring: seq<nat>, head: int, len: nat, k: nat)
    requires RingOk(ring, head, len) && k < len
    ensures Held(ring, head, len)[k] == ring[Slot(head, k)]
  {
  }

  /** Overwriting the slot after head puts a value in front of the window and lets the
      oldest of a full ring go. */
  lemma RingPush(ring: seq<nat>, head: int, len: nat, x: nat)
    requires RingOk(ring, head, len)
    ensures var (next, len') := ((head + 1) % N, Min(len + 1, N));
            && RingOk(ring[next := x], next, len')
            && Held(ring[next := x], next, len') == Recent([x] + Held(ring, head, len), N)
  {
    var next, len' := (head + 1) % N, Min(len + 1, N);
    var now, was := Held(ring[next := x], next, len'), [x] + Held(ring, head, len);
    forall k | 0 <= k < len' ensures now[k] == was[k] {
      HeldAt(ring[next := x], next, len', k);
      if k > 0 {
        SlotMoves(head, k);
        HeldAt(ring, head, len, k - 1);
      }
    }
  }

  class LossAli {
    var lastLoss: Word
    const s: array<nat>
    var sHead: int
    var sLen: nat
    var savg: real
    var lavg: real

    ghost predicate Valid()
      reads this
    {
      s.Length == N && -1 <= sHead < N && sLen <= N && (sHead == -1 ==> sLen == 0)
    }

    ghost function Window(): seq<nat>
      reads this, s
      requires Valid()
    {
      Held(s[..], sHead, sLen)
    }

    ghost function State(): Ali
      reads this, s
      requires Valid()
    {
      Ali(lastLoss, Window(), savg, lavg)
    }

    constructor ()
      ensures Valid() && fresh(s) && State() == START
    {
      lastLoss, sHead, sLen, savg, lavg := 0, -1, 0, 0.0, 0.0;
      s := new nat[N](_ => 0);
    }

    method RestartAveraging()
      requires Valid()
      modifies this
      ensures Valid() && State() == AliRestart(old(State()))
    {
      sLen, savg, lavg := 0, 0.0, 0.0;
    }

    /** Overwrite the oldest slot of the ring. */
    method Push(interval: nat)
      requires Valid()
      modifies this`sHead, this`sLen, s
      ensures Valid() && Window() == Recent([interval] + old(Window()), N)
    {
      RingPush(s[..], sHead, sLen, interval);
      sHead := (sHead + 1) % N;
      s[sHead] := interval;
      if sLen < N { sLen := sLen + 1; }
    }

    method CloseInterval(last: Word, seqno: Word)
      requires Valid()
      modifies this, s
      ensures Valid() && State() == NoteLoss(old(State()), last, seqno)
    {
      if Cmp(seqno, Next(last)) > 0 {
        var lossInterval := Diff(last, lastLoss) + 1;
        if lastLoss == 0 {
          if last == 0 {
            lossInterval := 2;
          } else if lossInterval > 10 {
            lossInterval := 10;
          }
        } else {
          if lossInterval < 2 { lossInterval := 2; }
          if lossInterval > 20 { lossInterval := 20; }
        }
        lastLoss := Prev(seqno);
        Push(lossInterval);
      }
    }

    method Update(last: Word, seqno: Word)
      requires Valid() && AliOk(State())
      modifies this, s
      ensures Valid() && State() == AliStep(old(State()), last, seqno)
    {
      CloseInterval(last, seqno);
      var s0 := Diff(seqno, lastLoss);
      if sLen > 0 {
        savg := MeanInterval(s0);
        lavg := 1.0 / savg;
      }
    }

    method MeanInterval(s0: nat) returns (mean: real)
      requires Valid() && sLen > 0 && WindowOk(Window())
      ensures mean == Average(Window(), s0)
    {
      var closed := ClosedMean();
      var open := 0.0;
      if sLen > 1 { open := OpenMean(s0); }
      mean := if closed < open then open else closed;
    }

    method ClosedMean() returns (mean: real)
      requires Valid() && sLen > 0
      ensures mean == Mean(Window())
    {
      var wssum, wsum := 0.0, 0.0;
      for k := 0 to sLen
        invariant wssum == Weighted(Window(), k) && wsum == Weights(k)
      {
        wssum := wssum + Weight(k) * s[Slot(sHead, k)] as real;
        wsum := wsum + Weight(k);
      }
      mean := wssum / wsum;
    }

    method OpenMean(s0: nat) returns (mean: real)
      requires Valid() && sLen > 1
      ensures mean == Mean([s0] + Window()[..sLen - 1])
    {
      ghost var xs := [s0] + Window()[..sLen - 1];
      var wssum, wsum := Weight(0) * s0 as real, Weight(0);
      assert Weighted(xs, 1) == wssum && Weights(1) == wsum;
      for k := 0 to sLen - 1
        invariant wssum == Weighted(xs, k + 1) && wsum == Weights(k + 1)
      {
        wssum := wssum + Weight(k + 1) * s[Slot(sHead, k)] as real;
        wsum := wsum + Weight(k + 1);
      }
      mean := wssum / wsum;
    }
  }
}
