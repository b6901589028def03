/** The queue of recent reports and the vote on where the evader is. */
module VotingQueue {

  const POSITIONS: nat := 9

  /** The slot k places after front in a ring of n. */
  function Slot(front: nat, k: nat, n: nat): (r: nat)
    requires front < n && k <= n
    ensures r < n
  {
    if front + k < n then front + k else front + k - n
  }

  lemma SlotIsRemainder(front: nat, k: nat, n: nat)
    requires front < n && k <= n
    ensures Slot(front, k, n) == (front + k) % n
  {
    AtLeastTwice((front + k) / n, n);
  }

  lemma AtLeastTwice(q: nat, n: nat)
    ensures q >= 2 ==> q * n >= 2 * n
  {
    if q >= 2 { assert (q - 2) * n >= 0; }
  }

  predicate RingOk(ring: seq<int>, front: nat, size: nat) {
    front < |ring| && size <= |ring|
  }

  /** What a ring holds, oldest first. */
  function Held(ring: seq<int>, front: nat, size: nat): (r: seq<int>)
    requires RingOk(ring, front, size)
    ensures |r| == size
    ensures forall k :: 0 <= k < size ==> r[k] == ring[Slot(front, k, |ring|)]
  {
    seq(size, k requires 0 <= k < size => ring[Slot(front, k, |ring|)])
  }

  lemma HeldTail(ring: seq<int>, front: nat, size: nat)
    requires RingOk(ring, front, size) && size > 0 && |ring| >= 2
    ensures [ring[front]] + Held(ring, Slot(front, 1, |ring|), size - 1) == Held(ring, front, size)
  {
  }

  lemma HeldPush(ring: seq<int>, front: nat, size: nat, x: int)
    requires RingOk(ring, front, size) && size < |ring|
    ensures Held(ring[Slot(front, size, |ring|) := x], front, size + 1) == Held(ring, front, size) + [x]
  {
  }

  class Queue {
    const maxSize: nat
    const items: array<int>
    var front: nat
    var rear: nat
    var size: nat

    ghost predicate Valid()
      reads this
    {
      && maxSize == items.Length >= 2 && size <= maxSize && front < maxSize && rear < maxSize
      && Slot(front, size, maxSize) == Slot(rear, 1, maxSize)
    }

    /** What the queue holds, oldest first. */
    ghost function Contents(): (r: seq<int>)
      reads this, items
      requires Valid()
      ensures |r| == size
    {
      Held(items[..], front, size)
    }

    constructor (maxElements: nat)
      requires maxElements >= 2
      ensures Valid() && fresh(items) && Contents() == [] && maxSize == maxElements
    {
      maxSize := maxElements;
      items := new int[maxElements](_ => 0);
      size, front, rear := 0, 1, 0;
    }

    function Succ(value: nat): (r: nat)
      requires maxSize >= 2 && value < maxSize
      ensures r == Slot(value, 1, maxSize)
    {
      if value + 1 == maxSize then 0 else value + 1
    }

    method Dequeue() returns (x: int)
      requires Valid() && size > 0
      modifies this`size, this`front
      ensures Valid() && size == old(size) - 1 && [x] + Contents() == old(Contents())
    {
      HeldTail(items[..], front, size);
      x := items[front];
      size := size - 1;
      front := Succ(front);
    }

    /** Put x at the end; a full queue first lets its oldest item go. */
    method Enqueue(x: int)
      requires Valid()
      modifies this, items
      ensures Valid()
      ensures Contents() == Pushed(old(Contents()), x, maxSize)
      decreases size
    {
      if size == maxSize {
        var dropped := Dequeue();
        assert Contents() == old(Contents())[1..];
        Enqueue(x);
      } else {
        HeldPush(items[..], front, size, x);
        size := size + 1;
        rear := Succ(rear);
        items[rear] := x;
      }
    }

    /** The oldest n items; what follows when there are fewer is left over from before. */
    method GetWindow(n: nat, x: array<int>)
      requires Valid() && n <= x.Length && x != items
      modifies x
      ensures forall k :: 0 <= k < n && k < size ==> x[k] == Contents()[k]
      ensures x[n..] == old(x[n..])
    {
      for i := 0 to n
        invariant forall k :: 0 <= k < i && k < size ==> x[k] == Contents()[k]
        invariant x[n..] == old(x[n..])
      {
        if i < size { SlotIsRemainder(front, i, maxSize); }
        x[i] := items[(front + i) % maxSize];
      }
    }

    /** Empty the queue and count where its reports put the evader. */
    method CastVotes(votes: array<int>, moteLocation: seq<seq<int>>)
      requires Valid() && IsTable(moteLocation) && AreMotes(Contents(), moteLocation)
      requires votes.Length == POSITIONS + 1 && votes[..] == Tally([], moteLocation) && votes != items
      modifies this`size, this`front, votes
      ensures Valid() && Contents() == [] && votes[..] == Tally(old(Contents()), moteLocation)
    {
      ghost var all, done := Contents(), [];
      assert all == done + Contents();
      while size > 0
        invariant Valid() && Queued(all, done, Contents())
        invariant AreMotes(all, moteLocation) && AreMotes(done, moteLocation)
        invariant votes[..] == Tally(done, moteLocation)
        decreases size
      {
        var element := Dequeue();
        Taken(all, done, element, Contents());
        CountReport(votes, moteLocation, element, done);
        done := done + [element];
      }
      AllTaken(all, done);
    }

    /** The lowest of the positions that most of the queued reports give. */
    method ComputeEvaderPosition(moteLocation: seq<seq<int>>) returns (position: nat)
      requires Valid() && IsTable(moteLocation) && AreMotes(Contents(), moteLocation)
      modifies this`size, this`front
      ensures Valid() && Contents() == []
      ensures Wins(position, Tally(old(Contents()), moteLocation))
      ensures NamedMost(position, old(Contents()), moteLocation)
    {
      var votes := new int[POSITIONS + 1](_ => 0);
      assert votes[..] == Tally([], moteLocation);
      CastVotes(votes, moteLocation);
      position := BestPosition(votes);
      WinnerIsNamedMost(position, old(Contents()), moteLocation);
    }
  }

  predicate Queued(all: seq<int>, done: seq<int>, rest: seq<int>) {
    all == done + rest
  }

  lemma Taken(all: seq<int>, done: seq<int>, x: int, rest: seq<int>)
    requires Queued(all, done, [x] + rest)
    ensures Queued(all, done + [x], rest) && all[|done|] == x
  {
  }

  lemma AllTaken(all: seq<int>, done: seq<int>)
    requires Queued(all, done, [])
    ensures all == done
  {
  }

  // ---------- the vote ----------

  /** Each mote's row gives a position, or -1 for none, in each place. */
  predicate IsTable(moteLocation: seq<seq<int>>) {
    forall m :: 0 <= m < |moteLocation| ==> IsRow(moteLocation[m])
  }

  predicate IsRow(row: seq<int>) {
    |row| == POSITIONS && forall i :: 0 <= i < POSITIONS ==> -1 <= row[i] < POSITIONS
  }

  predicate AreMotes(motes: seq<int>, moteLocation: seq<seq<int>>) {
    forall k :: 0 <= k < |motes| ==> 0 <= motes[k] < |moteLocation|
  }

  /** How often a row names the position before slot; slot 0 is for "none". */
  function RowVotes(row: seq<int>, slot: int): (n: nat) {
    if row == [] then 0 else RowVotes(row[..|row| - 1], slot) + (if row[|row| - 1] + 1 == slot then 1 else 0)
  }

  function Votes(motes: seq<int>, moteLocation: seq<seq<int>>, slot: int): (n: nat)
    requires AreMotes(motes, moteLocation)
  {
    if motes == [] then 0 else RowVotes(moteLocation[motes[0]], slot) + Votes(motes[1..], moteLocation, slot)
  }

  /** The votes for every slot. */
  function Tally(motes: seq<int>, moteLocation: seq<seq<int>>): (r: seq<int>)
    requires AreMotes(motes, moteLocation)
    ensures |r| == POSITIONS + 1
    ensures forall slot :: 0 <= slot <= POSITIONS ==> r[slot] == Votes(motes, moteLocation, slot)
  {
    seq(POSITIONS + 1, slot => Votes(motes, moteLocation, slot))
  }

  /** The lowest position with the most votes, the slot for "none" aside. */
  predicate Wins(position: nat, tally: seq<int>)
    requires |tally| == POSITIONS + 1
  {
    && position < POSITIONS
    && forall slot :: 1 <= slot <= POSITIONS ==>
         tally[slot] <= tally[position + 1] && (slot <= position ==> tally[slot] < tally[position + 1])
  }

  /** How often the rows of the motes name a position. */
  function Named(motes: seq<int>, moteLocation: seq<seq<int>>, position: int): (n: nat)
    requires AreMotes(motes, moteLocation)
  {
    if motes == [] then 0
    else multiset(moteLocation[motes[0]])[position] + Named(motes[1..], moteLocation, position)
  }

  lemma {:induction false} RowVotesCount(row: seq<int>, position: int)
    ensures RowVotes(row, position + 1) == multiset(row)[position]
  {
    if row != [] {
      RowVotesCount(row[..|row| - 1], position);
      assert row == row[..|row| - 1] + [row[|row| - 1]];
    }
  }

  lemma {:induction false} VotesCount(motes: seq<int>, moteLocation: seq<seq<int>>, position: int)
    requires AreMotes(motes, moteLocation)
    ensures Votes(motes, moteLocation, position + 1) == Named(motes, moteLocation, position)
  {
    if motes != [] {
      RowVotesCount(moteLocation[motes[0]], position);
      VotesCount(motes[1..], moteLocation, position);
    }
  }

  /** The lowest of the positions named most often. */
  ghost predicate NamedMost(position: nat, motes: seq<int>, moteLocation: seq<seq<int>>)
    requires AreMotes(motes, moteLocation)
  {
    && position < POSITIONS
    && forall p :: 0 <= p < POSITIONS ==>
         && Named(motes, moteLocation, p) <= Named(motes, moteLocation, position)
         && (p < position ==> Named(motes, moteLocation, p) < Named(motes, moteLocation, position))
  }

  lemma WinnerIsNamedMost(position: nat, motes: seq<int>, moteLocation: seq<seq<int>>)
    requires AreMotes(motes, moteLocation) && Wins(position, Tally(motes, moteLocation))
    ensures NamedMost(position, motes, moteLocation)
  {
    VotesCount(motes, moteLocation, position);
    forall p | 0 <= p < POSITIONS
      ensures Named(motes, moteLocation, p) <= Named(motes, moteLocation, position)
      ensures p < position ==> Named(motes, moteLocation, p) < Named(motes, moteLocation, position)
    {
      VotesCount(motes, moteLocation, p);
      assert Tally(motes, moteLocation)[p + 1] == Named(motes, moteLocation, p);
    }
  }

  lemma {:induction false} VotesJoin(a: seq<int>, b: seq<int>, moteLocation: seq<seq<int>>, slot: int)
    requires AreMotes(a, moteLocation) && AreMotes(b, moteLocation)
    ensures Votes(a + b, moteLocation, slot) == Votes(a, moteLocation, slot) + Votes(b, moteLocation, slot)
    decreases |a|
  {
    if a == [] {
      assert a + b == b;
    } else {
      VotesJoin(a[1..], b, moteLocation, slot);
      assert (a + b)[1..] == a[1..] + b;
    }
  }

  lemma VotesOneMore(motes: seq<int>, mote: int, moteLocation: seq<seq<int>>)
    requires AreMotes(motes, moteLocation) && 0 <= mote < |moteLocation|
    ensures AreMotes(motes + [mote], moteLocation)
    ensures forall slot :: Votes(motes + [mote], moteLocation, slot)
                        == Votes(motes, moteLocation, slot) + RowVotes(moteLocation[mote], slot)
  {
    forall slot
      ensures Votes(motes + [mote], moteLocation, slot)
           == Votes(motes, moteLocation, slot) + RowVotes(moteLocation[mote], slot) {
      VotesJoin(motes, [mote], moteLocation, slot);
      assert Votes([mote], moteLocation, slot)
          == RowVotes(moteLocation[mote], slot) + Votes([mote][1..], moteLocation, slot);
    }
  }

  method CountVotes(votes: array<int>, row: seq<int>)
    requires votes.Length == POSITIONS + 1 && IsRow(row)
    modifies votes
    ensures forall slot :: 0 <= slot <= POSITIONS ==> votes[slot] == old(votes[slot]) + RowVotes(row, slot)
  {
    for i := 0 to POSITIONS
      invariant forall slot :: 0 <= slot <= POSITIONS ==> votes[slot] == old(votes[slot]) + RowVotes(row[..i], slot)
    {
      assert row[..i + 1][..i] == row[..i];
      votes[row[i] + 1] := votes[row[i] + 1] + 1;
    }
    assert row[..POSITIONS] == row;
  }

  method CountReport(votes: array<int>, moteLocation: seq<seq<int>>, mote: int, ghost done: seq<int>)
    requires IsTable(moteLocation) && AreMotes(done, moteLocation) && 0 <= mote < |moteLocation|
    requires votes.Length == POSITIONS + 1 && votes[..] == Tally(done, moteLocation)
    modifies votes
    ensures AreMotes(done + [mote], moteLocation) && votes[..] == Tally(done + [mote], moteLocation)
  {
    VotesOneMore(done, mote, moteLocation);
    CountVotes(votes, moteLocation[mote]);
  }

  method BestPosition(votes: array<int>) returns (position: nat)
    requires votes.Length == POSITIONS + 1
    ensures Wins(position, votes[..])
  {
    var best, max := 1, votes[1];
    for i := 2 to POSITIONS + 1
      invariant 1 <= best < i && max == votes[best]
      invariant forall slot :: 1 <= slot < i ==> votes[slot] <= max && (slot < best ==> votes[slot] < max)
    {
      if votes[i] > max { best, max := i, votes[i]; }
    }
    position := best - 1;
  }

  function SlotsTo(motes: seq<int>, moteLocation: seq<seq<int>>, n: nat): (r: nat)
    requires AreMotes(motes, moteLocation)
  {
    if n == 0 then 0 else SlotsTo(motes, moteLocation, n - 1) + Votes(motes, moteLocation, n - 1)
  }

  function RowSlotsTo(row: seq<int>, n: nat): (r: nat) {
    if n == 0 then 0 else RowSlotsTo(row, n - 1) + RowVotes(row, n - 1)
  }

  lemma {:induction false} OneVoteEach(row: seq<int>, n: nat)
    requires forall i :: 0 <= i < |row| ==> -1 <= row[i]
    requires row != []
    ensures RowSlotsTo(row, n) == RowSlotsTo(row[..|row| - 1], n) + (if row[|row| - 1] + 1 < n then 1 else 0)
  {
    if n > 0 { OneVoteEach(row, n - 1); }
  }

  lemma {:induction false} RowCasts(row: seq<int>, n: nat)
    requires forall i :: 0 <= i < |row| ==> -1 <= row[i] < n - 1
    ensures RowSlotsTo(row, n) == |row|
    decreases |row|
  {
    if row == [] {
      NoVotes(n);
    } else {
      OneVoteEach(row, n);
      RowCasts(row[..|row| - 1], n);
    }
  }

  lemma {:induction false} NoVotes(n: nat)
    ensures RowSlotsTo([], n) == 0
  {
    if n > 0 { NoVotes(n - 1); }
  }

  lemma {:induction false} SlotsSplit(motes: seq<int>, moteLocation: seq<seq<int>>, n: nat)
    requires AreMotes(motes, moteLocation) && motes != []
    ensures SlotsTo(motes, moteLocation, n)
         == RowSlotsTo(moteLocation[motes[0]], n) + SlotsTo(motes[1..], moteLocation, n)
  {
    if n > 0 { SlotsSplit(motes, moteLocation, n - 1); }
  }

  lemma {:induction false} NoSlots(moteLocation: seq<seq<int>>, n: nat)
    ensures SlotsTo([], moteLocation, n) == 0
  {
    if n > 0 { NoSlots(moteLocation, n - 1); }
  }

  /** Every report casts exactly POSITIONS votes, the ones for "none" included. */
  lemma {:induction false} VotesAreConserved(motes: seq<int>, moteLocation: seq<seq<int>>)
    requires IsTable(moteLocation) && AreMotes(motes, moteLocation)
    ensures SlotsTo(motes, moteLocation, POSITIONS + 1) == POSITIONS * |motes|
    decreases |motes|
  {
    if motes == [] {
      NoSlots(moteLocation, POSITIONS + 1);
    } else {
      SlotsSplit(motes, moteLocation, POSITIONS + 1);
      RowCasts(moteLocation[motes[0]], POSITIONS + 1);
      VotesAreConserved(motes[1..], moteLocation);
    }
  }

  // ---------- runs of the queue ----------

  /** The last n of a list. */
  function LastOf(xs: seq<int>, n: nat): (r: seq<int>) {
    if |xs| <= n then xs else xs[|xs| - n..]
  }

  /** What Enqueue makes of the contents. */
  function Pushed(contents: seq<int>, x: int, capacity: nat): (r: seq<int>)
    requires |contents| <= capacity && capacity > 0
    ensures |r| <= capacity
  {
    (if |contents| == capacity then contents[1..] else contents) + [x]
  }

  function PushAll(contents: seq<int>, xs: seq<int>, capacity: nat): (r: seq<int>)
    requires |contents| <= capacity && capacity > 0
    decreases |xs|
  {
    if xs == [] then contents else PushAll(Pushed(contents, xs[0], capacity), xs[1..], capacity)
  }

  lemma LastAfterPush(contents: seq<int>, xs: seq<int>, capacity: nat)
    requires |contents| <= capacity && capacity > 0 && xs != []
    ensures LastOf(Pushed(contents, xs[0], capacity) + xs[1..], capacity) == LastOf(contents + xs, capacity)
  {
    var all, next := contents + xs, Pushed(contents, xs[0], capacity) + xs[1..];
    if |contents| == capacity {
      assert next == all[1..];
      assert next[|next| - capacity..] == all[|all| - capacity..];
    } else {
      assert next == all;
    }
  }

  /** However many reports come in, the queue keeps the most recent ones in order. */
  lemma {:induction false} KeepsMostRecent(contents: seq<int>, xs: seq<int>, capacity: nat)
    requires |contents| <= capacity && capacity > 0
    ensures PushAll(contents, xs, capacity) == LastOf(contents + xs, capacity)
    decreases |xs|
  {
    if xs == [] {
      assert contents + xs == contents;
    } else {
      var next := Pushed(contents, xs[0], capacity);
      KeepsMostRecent(next, xs[1..], capacity);
      LastAfterPush(contents, xs, capacity);
    }
  }
}
