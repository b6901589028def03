/** The attribute format shared by tasks and responses: a 16-bit tag and a 16-bit length, low
    byte first, and then the value. */
module Tlv {

  import opened Common
  import opened LittleEndian

  const HEADER: nat := 4

  datatype Attr = Attr(tag: Word, value: seq<Byte>)

  predicate Encodable(attrs: seq<Attr>) {
    forall i :: 0 <= i < |attrs| ==> |attrs[i].value| < 0x1_0000
  }

  function Encode(a: Attr): (r: seq<Byte>)
    requires |a.value| < 0x1_0000
    ensures |r| == HEADER + |a.value|
  {
    WordBytes(a.tag) + WordBytes(|a.value|) + a.value
  }

  function EncodeAll(attrs: seq<Attr>): (r: seq<Byte>)
    requires Encodable(attrs)
  {
    if attrs == [] then [] else Encode(attrs[0]) + EncodeAll(attrs[1..])
  }

  /** The first attribute of s, if it is all there. */
  function First(s: seq<Byte>): (r: Option<Attr>) {
    if |s| < HEADER || |s| < HEADER + WordAt(s, 2) then None
    else Some(Attr(WordAt(s, 0), s[HEADER..HEADER + WordAt(s, 2)]))
  }

  /** The attributes that make up s; None if the last is cut short. */
  function Parse(s: seq<Byte>): (r: Option<seq<Attr>>)
    decreases |s|
  {
    if s == [] then Some([])
    else match First(s)
      case None => None
      case Some(a) =>
        var rest := Parse(s[HEADER + |a.value|..]);
        if rest.None? then None else Some([a] + rest.value)
  }

  lemma FirstOfEncoded(a: Attr, rest: seq<Byte>)
    requires |a.value| < 0x1_0000
    ensures First(Encode(a) + rest) == Some(a)
    ensures (Encode(a) + rest)[HEADER + |a.value|..] == rest
  {
    var s := Encode(a) + rest;
    assert s[..2] == WordBytes(a.tag) && s[2..4] == WordBytes(|a.value|) && s[4..4 + |a.value|] == a.value;
    assert WordAt(s, 0) == ToWord(s[..2][0], s[..2][1]) && WordAt(s, 2) == ToWord(s[2..4][0], s[2..4][1]);
  }

  lemma BytesOfWord(s: seq<Byte>, at: nat)
    requires at + 2 <= |s|
    ensures WordBytes(WordAt(s, at)) == s[at..at + 2]
  {
  }

  lemma EncodedFirst(s: seq<Byte>)
    requires First(s).Some?
    ensures var a := First(s).value;
            |a.value| < 0x1_0000 && HEADER + |a.value| <= |s| && Encode(a) + s[HEADER + |a.value|..] == s
  {
    BytesOfWord(s, 0);
    BytesOfWord(s, 2);
    var a := First(s).value;
    assert s == s[0..2] + s[2..4] + s[4..4 + |a.value|] + s[4 + |a.value|..];
  }

  lemma {:induction false} ParseEncoded(attrs: seq<Attr>)
    requires Encodable(attrs)
    ensures Parse(EncodeAll(attrs)) == Some(attrs)
    decreases |attrs|
  {
    if attrs != [] {
      ParseEncoded(attrs[1..]);
      FirstOfEncoded(attrs[0], EncodeAll(attrs[1..]));
      assert attrs == [attrs[0]] + attrs[1..];
    }
  }

  lemma {:induction false} EncodedParse(s: seq<Byte>)
    requires Parse(s).Some?
    ensures Encodable(Parse(s).value) && EncodeAll(Parse(s).value) == s
    decreases |s|
  {
    if s != [] {
      var a := First(s).value;
      EncodedFirst(s);
      EncodedParse(s[HEADER + |a.value|..]);
      var rest := Parse(s[HEADER + |a.value|..]).value;
      assert Parse(s).value[1..] == rest;
    }
  }

  /** Walking the attributes of a buffer gives exactly the ones it was written from. */
  lemma ParseIsInverse(s: seq<Byte>, attrs: seq<Attr>)
    ensures Parse(s) == Some(attrs) <==> Encodable(attrs) && s == EncodeAll(attrs)
  {
    if Encodable(attrs) { ParseEncoded(attrs); }
    if Parse(s).Some? { EncodedParse(s); }
  }
}
