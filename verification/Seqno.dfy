/** The transport's cyclic sequence numbers: 1 to 50000, with 0 for "none yet".  Motes number
    their packets up to 65535, so every 16-bit word can arrive. */
module Seqno {

  import opened Common

  const FIRST_SEQNO: nat := 1
  const MAX_SEQNO: nat := 50000
  const VALID_RANGE: nat := 200
  const WORD: nat := 0x1_0000

  predicate InRange(n: int) {
    FIRST_SEQNO <= n <= MAX_SEQNO
  }

  function Next(s: Word): (r: Word)
    ensures InRange(r)
  {
    if s >= MAX_SEQNO then FIRST_SEQNO else s + 1
  }

  function Prev(s: Word): (r: Word)
    ensures InRange(s) ==> InRange(r) && Next(r) == s
  {
    if s <= FIRST_SEQNO then MAX_SEQNO else s - 1
  }

  /** How far newer is past older, in 16-bit arithmetic. */
  function Diff(newer: Word, older: Word): (r: Word) {
    if older > newer then (MAX_SEQNO + newer - older) % WORD else newer - older
  }

  /** The 16-bit sum, brought back under MAX_SEQNO; one subtraction is always enough. */
  function Add(a: Word, b: Word): (r: Word)
    ensures InRange(r)
  {
    var c := (a + b) % WORD;
    var d := if c > MAX_SEQNO then c - MAX_SEQNO else c;
    if d < FIRST_SEQNO then FIRST_SEQNO else d
  }

  /** 1 if a is newer than b, -1 if older. */
  function Cmp(a: Word, b: Word): (r: int)
    ensures -1 <= r <= 1
  {
    if a == b then 0
    else if a < b then
      if b - a <= VALID_RANGE then -1
      else if Add(a, (MAX_SEQNO - b) % WORD) < VALID_RANGE then 1
      else -1
    else
      if a - b <= VALID_RANGE then 1
      else if Add(b, (MAX_SEQNO - a) % WORD) < VALID_RANGE then -1
      else 1
  }

  predicate Newer(a: Word, b: Word) {
    Cmp(a, b) > 0
  }

  /** Inside the range, newer means up to 49800 ahead without the wrap, or under 200 ahead
      across it. */
  lemma NewerInRange(a: Word, b: Word)
    requires InRange(a) && b <= MAX_SEQNO
    ensures Newer(a, b) <==> (b < a && Diff(a, b) <= 49800) || (a < b && Diff(a, b) < 200)
  {
    if a < b {
      assert (MAX_SEQNO - b) % WORD == MAX_SEQNO - b;
    } else {
      assert (MAX_SEQNO - a) % WORD == MAX_SEQNO - a;
    }
  }

  /** k steps on from s. */
  function Walk(s: Word, k: nat): (r: Word)
    ensures k > 0 ==> InRange(r)
    decreases k
  {
    if k == 0 then s else Walk(Next(s), k - 1)
  }

  lemma {:induction false} WalkJoins(s: Word, j: nat, k: nat)
    ensures Walk(Walk(s, j), k) == Walk(s, j + k)
    decreases j
  {
    if j > 0 {
      WalkJoins(Next(s), j - 1, k);
    }
  }

  /** Diff is the least number of steps from one number to the other. */
  lemma {:induction false} DiffIsLeastWalk(newer: Word, older: Word)
    requires InRange(newer) && older <= MAX_SEQNO
    ensures Walk(older, Diff(newer, older)) == newer
    ensures forall k: nat :: k < Diff(newer, older) ==> Walk(older, k) != newer
    decreases Diff(newer, older)
  {
    if Diff(newer, older) > 0 {
      assert Diff(newer, Next(older)) == Diff(newer, older) - 1;
      DiffIsLeastWalk(newer, Next(older));
      forall k: nat | k < Diff(newer, older) ensures Walk(older, k) != newer {
        if k > 0 { assert Walk(older, k) == Walk(Next(older), k - 1); }
      }
    }
  }

  lemma DiffAdds(newest: Word, middle: Word, oldest: Word)
    requires InRange(newest) && InRange(middle) && InRange(oldest)
    requires Diff(middle, oldest) + Diff(newest, middle) < MAX_SEQNO
    ensures Diff(newest, oldest) == Diff(middle, oldest) + Diff(newest, middle)
  {
  }

  // ---------- counting the numbers that were skipped ----------

  /** The number at which a walk looking for a word must stop. */
  function StopsAt(a: Word): (r: Word)
    ensures InRange(r)
  {
    if a == 0 then FIRST_SEQNO else if a > MAX_SEQNO then a - MAX_SEQNO else a
  }

  lemma NotNewerThanStop(a: Word)
    ensures !Newer(a, StopsAt(a))
  {
    if a > MAX_SEQNO {
      var b := a - MAX_SEQNO;
      assert b + (MAX_SEQNO - a) % WORD == WORD by { assert (MAX_SEQNO - a) % WORD == MAX_SEQNO - a + WORD; }
    }
  }

  /** How many numbers from x on a is newer than. */
  function Gap(a: Word, x: Word): (r: nat)
    requires InRange(x)
    ensures !Newer(a, Walk(x, r))
    decreases Diff(StopsAt(a), x)
  {
    NotNewerThanStop(a);
    if Newer(a, x) then 1 + Gap(a, Next(x)) else 0
  }

  /** The numbers counted as missing when a arrives after last. */
  function Missing(a: Word, last: Word): (r: nat) {
    Gap(a, Next(last))
  }

  lemma NewerFromAbove(a: Word, last: Word)
    requires InRange(a) && last > MAX_SEQNO && Newer(a, last)
    ensures a == 1 || Newer(a, 1)
  {
    assert (MAX_SEQNO - last) % WORD == MAX_SEQNO - last + WORD;
    NewerInRange(a, 1);
  }

  lemma NewerCarriesOn(a: Word, last: Word)
    requires InRange(a) && Newer(a, last)
    ensures a == Next(last) || Newer(a, Next(last))
  {
    if last <= MAX_SEQNO {
      NewerInRange(a, last);
      NewerInRange(a, Next(last));
    } else {
      NewerFromAbove(a, last);
    }
  }

  lemma {:induction false} GapReaches(a: Word, x: Word)
    requires InRange(a) && InRange(x) && (a == x || Newer(a, x))
    ensures Walk(x, Gap(a, x)) == a
    ensures forall k: nat :: k < Gap(a, x) ==> Walk(x, k) != a
    decreases Gap(a, x)
  {
    if a != x {
      NewerCarriesOn(a, x);
      GapReaches(a, Next(x));
      forall k: nat | k < Gap(a, x) ensures Walk(x, k) != a {
        if k > 0 { assert Walk(x, k) == Walk(Next(x), k - 1); }
      }
    }
  }

  /** When a is newer than last, the count is exactly the numbers passed over on the way to
      a, if a is in the range; outside it the count never leads to a. */
  lemma MissingIsExact(a: Word, last: Word)
    requires Newer(a, last)
    ensures InRange(a) <==> Walk(last, Missing(a, last) + 1) == a
    ensures InRange(a) ==> forall k: nat :: 1 <= k <= Missing(a, last) ==> Walk(last, k) != a
  {
    assert Walk(last, Missing(a, last) + 1) == Walk(Next(last), Missing(a, last));
    if InRange(a) {
      NewerCarriesOn(a, last);
      GapReaches(a, Next(last));
      forall k: nat | 1 <= k <= Missing(a, last) ensures Walk(last, k) != a {
        assert Walk(last, k) == Walk(Next(last), k - 1);
      }
    }
  }

  lemma FirstVisitIsUnique(s: Word, a: Word, i: nat, j: nat)
    requires 1 <= i && 1 <= j && Walk(s, i) == a && Walk(s, j) == a
    requires forall k: nat :: 1 <= k < i ==> Walk(s, k) != a
    requires forall k: nat :: 1 <= k < j ==> Walk(s, k) != a
    ensures i == j
  {
  }

  lemma MissingIsDistance(a: Word, last: Word)
    requires InRange(a) && last <= MAX_SEQNO && Newer(a, last)
    ensures Missing(a, last) + 1 == Diff(a, last)
  {
    MissingIsExact(a, last);
    DiffIsLeastWalk(a, last);
    FirstVisitIsUnique(last, a, Missing(a, last) + 1, Diff(a, last));
  }

  /** 50000 + k is newer than the numbers up to k - 1, and not newer than k. */
  lemma NewerAbove(k: nat, x: Word)
    requires 1 <= x <= k <= 15337
    ensures Newer(MAX_SEQNO + k, x) <==> x < k
  {
    assert (MAX_SEQNO - (MAX_SEQNO + k)) % WORD == WORD - k;
  }

  lemma {:induction false} GapAbove(k: nat, x: Word)
    requires 1 <= x <= k <= 15337
    ensures Gap(MAX_SEQNO + k, x) == k - x
    decreases k - x
  {
    NewerAbove(k, x);
    if x < k {
      GapAbove(k, x + 1);
    }
  }

  /** Above the range, packets that arrive in order with nothing lost are counted as
      following a gap: 50000 + k after 50000 + k - 1 adds k - 1 missing packets. */
  lemma FalseLosses(k: nat)
    requires 1 <= k <= 15337
    ensures Newer(MAX_SEQNO + k, MAX_SEQNO + k - 1) && Missing(MAX_SEQNO + k, MAX_SEQNO + k - 1) == k - 1
  {
    GapAbove(k, 1);
  }
}
