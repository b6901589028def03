/** Words of two and four bytes in memory, low byte first. */
module LittleEndian {

  import opened Common

  type Long = x: int | 0 <= x < 0x1_0000_0000

  function ToWord(lo: Byte, hi: Byte): (r: Word) {
    lo + 0x100 * hi
  }

  function WordBytes(w: Word): (r: seq<Byte>)
    ensures |r| == 2 && ToWord(r[0], r[1]) == w
  {
    [w % 0x100, w / 0x100]
  }

  /** The word at a place in a buffer. */
  function WordAt(s: seq<Byte>, at: nat): (r: Word)
    requires at + 2 <= |s|
  {
    ToWord(s[at], s[at + 1])
  }

  function LongBytes(x: Long): (r: seq<Byte>)
    ensures |r| == 4
  {
    WordBytes(x % 0x1_0000) + WordBytes(x / 0x1_0000)
  }

  function LongAt(s: seq<Byte>, at: nat): (r: Long)
    requires at + 4 <= |s|
  {
    WordAt(s, at) + 0x1_0000 * WordAt(s, at + 2)
  }

  /** What is written is what is read. */
  lemma LongInFront(x: Long, rest: seq<Byte>)
    ensures LongAt(LongBytes(x) + rest, 0) == x
  {
  }

  lemma WordInFront(w: Word, rest: seq<Byte>)
    ensures WordAt(WordBytes(w) + rest, 0) == w
  {
  }

  lemma LongBehind(before: seq<Byte>, s: seq<Byte>, at: nat)
    requires at + 4 <= |s|
    ensures LongAt(before + s, |before| + at) == LongAt(s, at)
  {
  }

  lemma WordBehind(before: seq<Byte>, s: seq<Byte>, at: nat)
    requires at + 2 <= |s|
    ensures WordAt(before + s, |before| + at) == WordAt(s, at)
  {
  }
}
