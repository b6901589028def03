/** The PackBits decoder (TIFF Revision 6.0, Section 9), with the decoded data staged in a
    buffer of its own, so that input and output may be the same memory. */
module PackBits {

  import opened Common

  const BUF_SIZE: nat := 65536

  datatype DecodeError = InputTooLong | OutputTooLong

  // ---------- what the format means ----------

  datatype Packet = Literal(data: seq<Byte>) | Run(count: nat, value: Byte) | NoOp

  predicate IsPacket(p: Packet) {
    match p
    case Literal(data) => 1 <= |data| <= 128
    case Run(count, _) => 2 <= count <= 128
    case NoOp => true
  }

  function Repeat(n: nat, v: Byte): (r: seq<Byte>)
    ensures |r| == n && forall i :: 0 <= i < n ==> r[i] == v
  {
    seq(n, _ => v)
  }

  function Encode(p: Packet): (r: seq<Byte>)
    requires IsPacket(p)
  {
    match p
    case Literal(data) => [|data| - 1] + data
    case Run(count, value) => [257 - count, value]
    case NoOp => [128]
  }

  function Expand(p: Packet): (r: seq<Byte>) {
    match p
    case Literal(data) => data
    case Run(count, value) => Repeat(count, value)
    case NoOp => []
  }

  predicate ArePackets(ps: seq<Packet>) {
    forall i :: 0 <= i < |ps| ==> IsPacket(ps[i])
  }

  function EncodeAll(ps: seq<Packet>): (r: seq<Byte>)
    requires ArePackets(ps)
  {
    if ps == [] then [] else Encode(ps[0]) + EncodeAll(ps[1..])
  }

  function ExpandAll(ps: seq<Packet>): (r: seq<Byte>) {
    if ps == [] then [] else Expand(ps[0]) + ExpandAll(ps[1..])
  }

  // ---------- what the decoder computes ----------

  /** A header byte read as a signed count. */
  function Signed(b: Byte): (r: int) {
    if b < 128 then b else b - 256
  }

  /** The decoding of s, however long.  A last byte on its own is ignored, and a literal
      that is cut short gives what there is of it. */
  function Unpack(s: seq<Byte>): (r: seq<Byte>)
    decreases |s|
  {
    if |s| < 2 then []
    else
      var h := Signed(s[0]);
      if h == -128 then Unpack(s[1..])
      else if h < 0 then Repeat(1 - h, s[1]) + Unpack(s[2..])
      else
        var n := Min(1 + h, |s| - 1);
        s[1..1 + n] + Unpack(s[1 + n..])
  }

  /** What decoding s gives: an input over BUF_SIZE, and a result that would fill the output
      buffer, are errors. */
  function Decoded(s: seq<Byte>): (r: Result<seq<Byte>, DecodeError>) {
    if |s| > BUF_SIZE then Err(InputTooLong)
    else if |Unpack(s)| >= BUF_SIZE then Err(OutputTooLong)
    else Ok(Unpack(s))
  }

  lemma UnpackPacket(p: Packet, rest: seq<Byte>)
    requires IsPacket(p)
    ensures Unpack(Encode(p) + rest) == Expand(p) + Unpack(rest)
  {
    var s := Encode(p) + rest;
    match p
    case NoOp =>
      assert s[1..] == rest;
    case Run(count, value) =>
      assert s[0] == 257 - count && s[1] == value && s[2..] == rest;
    case Literal(data) =>
      assert s[0] == |data| - 1 && s[1..1 + |data|] == data && s[1 + |data|..] == rest;
  }

  /** Decoding undoes every encoding. */
  lemma {:induction false} UnpackEncoded(ps: seq<Packet>, rest: seq<Byte>)
    requires ArePackets(ps)
    ensures Unpack(EncodeAll(ps) + rest) == ExpandAll(ps) + Unpack(rest)
    decreases |ps|
  {
    if ps == [] {
      assert EncodeAll(ps) + rest == rest;
    } else {
      Assoc(Encode(ps[0]), EncodeAll(ps[1..]), rest);
      UnpackPacket(ps[0], EncodeAll(ps[1..]) + rest);
      UnpackEncoded(ps[1..], rest);
      Assoc(Expand(ps[0]), ExpandAll(ps[1..]), Unpack(rest));
    }
  }

  /** The decoder's promise: an encoding decodes to what it stands for, provided it fits the
      input buffer and what it stands for is shorter than the output buffer, and only then. */
  lemma EncodingDecodes(ps: seq<Packet>)
    requires ArePackets(ps)
    ensures Decoded(EncodeAll(ps)).Ok? <==> |EncodeAll(ps)| <= BUF_SIZE && |ExpandAll(ps)| < BUF_SIZE
    ensures Decoded(EncodeAll(ps)).Ok? ==> Decoded(EncodeAll(ps)).value == ExpandAll(ps)
  {
    UnpackEncoded(ps, []);
    assert EncodeAll(ps) + [] == EncodeAll(ps) && ExpandAll(ps) + [] == ExpandAll(ps);
  }

  /** What can be left at the end of any input: nothing, one byte, or a short literal. */
  predicate IsTail(t: seq<Byte>) {
    |t| <= 1 || (t[0] < 128 && |t| - 1 < 1 + t[0])
  }

  /** Every input is an encoding followed by such a tail, and decodes to what the packets
      stand for followed by the literal bytes of the tail. */
  lemma {:induction false} AnyInput(s: seq<Byte>) returns (ps: seq<Packet>, tail: seq<Byte>)
    ensures ArePackets(ps) && IsTail(tail) && s == EncodeAll(ps) + tail
    ensures Unpack(s) == ExpandAll(ps) + TailData(tail)
    decreases |s|
  {
    if IsTail(s) {
      ps, tail := [], s;
      if |s| >= 2 { assert s[1..1 + (|s| - 1)] == s[1..]; assert Unpack(s[|s|..]) == []; }
    } else {
      var p := FirstPacket(s);
      var more;
      more, tail := AnyInput(s[|Encode(p)|..]);
      ps := [p] + more;
      PutBack(p, s, more, tail);
    }
  }

  /** The packet an input that is not just a tail starts with. */
  ghost function FirstPacket(s: seq<Byte>): (p: Packet)
    requires !IsTail(s)
    ensures IsPacket(p) && |Encode(p)| <= |s| && s == Encode(p) + s[|Encode(p)|..]
  {
    var h := Signed(s[0]);
    if h == -128 then assert s == [128] + s[1..]; NoOp
    else if h < 0 then assert s == [s[0], s[1]] + s[2..]; Run(1 - h, s[1])
    else assert s == ([s[0]] + s[1..2 + h]) + s[2 + h..]; Literal(s[1..2 + h])
  }

  lemma PutBack(p: Packet, s: seq<Byte>, more: seq<Packet>, tail: seq<Byte>)
    requires IsPacket(p) && |Encode(p)| <= |s| && s == Encode(p) + s[|Encode(p)|..]
    requires ArePackets(more) && s[|Encode(p)|..] == EncodeAll(more) + tail
    requires Unpack(s[|Encode(p)|..]) == ExpandAll(more) + TailData(tail)
    ensures s == EncodeAll([p] + more) + tail
    ensures Unpack(s) == ExpandAll([p] + more) + TailData(tail)
  {
    var ps := [p] + more;
    assert ps[0] == p && ps[1..] == more;
    assert EncodeAll(ps) == Encode(p) + EncodeAll(more);
    assert ExpandAll(ps) == Expand(p) + ExpandAll(more);
    UnpackPacket(p, s[|Encode(p)|..]);
    Assoc(Encode(p), EncodeAll(more), tail);
    Assoc(Expand(p), ExpandAll(more), TailData(tail));
  }

  lemma SubSlice(s: seq<Byte>, a: nat, b: nat, c: nat, d: nat)
    requires a <= b <= |s| && c <= d <= b - a
    ensures s[a..b][c..d] == s[a + c..a + d]
  {
    var l, r := s[a..b][c..d], s[a + c..a + d];
    assert |l| == |r|;
    forall i | 0 <= i < |l| ensures l[i] == r[i] { assert l[i] == s[a..b][c + i]; }
  }

  /** The bytes of a literal cut short. */
  function TailData(tail: seq<Byte>): (r: seq<Byte>) {
    if |tail| <= 1 then [] else tail[1..]
  }

  // ---------- the decoder ----------

  /** Copy a run into outbuf; stops short only when outbuf is full. */
  method PutRun(outbuf: array<Byte>, start: nat, count: nat, val: Byte) returns (rawlen: nat)
    requires outbuf.Length == BUF_SIZE && start < BUF_SIZE
    modifies outbuf
    ensures rawlen <= BUF_SIZE && start <= rawlen
    ensures rawlen < BUF_SIZE ==> rawlen == start + count
    ensures rawlen == BUF_SIZE ==> BUF_SIZE <= start + count
    ensures outbuf[..start] == old(outbuf[..start])
    ensures rawlen < BUF_SIZE ==> outbuf[start..rawlen] == Repeat(count, val)
  {
    rawlen := start;
    var runlen := count;
    while runlen > 0
      invariant 0 <= runlen <= count && rawlen == start + (count - runlen) && rawlen < BUF_SIZE
      invariant outbuf[..start] == old(outbuf[..start])
      invariant forall i :: start <= i < rawlen ==> outbuf[i] == val
    {
      outbuf[rawlen] := val;
      rawlen := rawlen + 1;
      if rawlen >= BUF_SIZE { break; }
      runlen := runlen - 1;
    }
    assert rawlen < BUF_SIZE ==> outbuf[start..rawlen] == Repeat(count, val);
  }

  /** Copy a literal of at most count bytes from inp[start..inlen]; stops at the end of the
      input, or short of it when outbuf is full. */
  method PutLiteral(inp: array<Byte>, start: nat, inlen: nat, outbuf: array<Byte>, outStart: nat, count: nat)
    returns (codelen: nat, rawlen: nat)
    requires outbuf.Length == BUF_SIZE && outStart < BUF_SIZE && inp != outbuf
    requires start < inlen <= inp.Length && 0 < count
    modifies outbuf
    ensures start <= codelen <= inlen && rawlen <= BUF_SIZE && outStart <= rawlen
    ensures outbuf[..outStart] == old(outbuf[..outStart])
    ensures rawlen < BUF_SIZE ==>
              && codelen == start + Min(count, inlen - start) && rawlen == outStart + (codelen - start)
              && outbuf[outStart..rawlen] == inp[start..codelen]
    ensures rawlen == BUF_SIZE ==> BUF_SIZE <= outStart + Min(count, inlen - start)
  {
    codelen, rawlen := start, outStart;
    var runlen := count;
    while runlen > 0
      invariant 0 <= runlen <= count && codelen == start + (count - runlen) && rawlen == outStart + (count - runlen)
      invariant rawlen < BUF_SIZE && (runlen > 0 ==> codelen < inlen) && codelen <= inlen
      invariant outbuf[..outStart] == old(outbuf[..outStart])
      invariant forall i :: outStart <= i < rawlen ==> outbuf[i] == inp[start + (i - outStart)]
    {
      var val := inp[codelen];
      codelen := codelen + 1;
      outbuf[rawlen] := val;
      rawlen := rawlen + 1;
      if rawlen >= BUF_SIZE { break; }
      runlen := runlen - 1;
      if codelen >= inlen { break; }
    }
  }

  method DecodeRun(inp: array<Byte>, inlen: nat, outbuf: array<Byte>, codelen: nat, rawlen: nat)
    returns (codelen': nat, rawlen': nat)
    requires inp != outbuf && outbuf.Length == BUF_SIZE && codelen + 1 < inlen <= inp.Length && rawlen < BUF_SIZE
    requires 128 < inp[codelen]
    modifies outbuf
    ensures codelen < codelen' <= inlen && rawlen <= rawlen' <= BUF_SIZE
    ensures rawlen' < BUF_SIZE ==>
              old(outbuf[..rawlen]) + Unpack(inp[codelen..inlen]) == outbuf[..rawlen'] + Unpack(inp[codelen'..inlen])
    ensures rawlen' == BUF_SIZE ==> BUF_SIZE <= rawlen + |Unpack(inp[codelen..inlen])|
  {
    ghost var left, done := inp[codelen..inlen], outbuf[..rawlen];
    var runlen := 1 - Signed(inp[codelen]);
    var val := inp[codelen + 1];
    codelen' := codelen + 2;
    assert left[2..] == inp[codelen'..inlen];
    rawlen' := PutRun(outbuf, rawlen, runlen, val);
    if rawlen' < BUF_SIZE {
      Joined(outbuf[..rawlen'], rawlen, done, Repeat(runlen, val), Unpack(inp[codelen'..inlen]));
    }
  }

  method DecodeLiteral(inp: array<Byte>, inlen: nat, outbuf: array<Byte>, codelen: nat, rawlen: nat)
    returns (codelen': nat, rawlen': nat)
    requires inp != outbuf && outbuf.Length == BUF_SIZE && codelen + 1 < inlen <= inp.Length && rawlen < BUF_SIZE
    requires inp[codelen] < 128
    modifies outbuf
    ensures codelen < codelen' <= inlen && rawlen <= rawlen' <= BUF_SIZE
    ensures rawlen' < BUF_SIZE ==>
              old(outbuf[..rawlen]) + Unpack(inp[codelen..inlen]) == outbuf[..rawlen'] + Unpack(inp[codelen'..inlen])
    ensures rawlen' == BUF_SIZE ==> BUF_SIZE <= rawlen + |Unpack(inp[codelen..inlen])|
  {
    ghost var done := outbuf[..rawlen];
    LiteralUnpacks(inp[..], codelen, inlen);
    codelen', rawlen' := PutLiteral(inp, codelen + 1, inlen, outbuf, rawlen, 1 + Signed(inp[codelen]));
    if rawlen' < BUF_SIZE {
      Joined(outbuf[..rawlen'], rawlen, done, inp[codelen + 1..codelen'], Unpack(inp[codelen'..inlen]));
    }
  }

  /** One round of the outer loop: decode the packet at codelen. */
  method DecodePacket(inp: array<Byte>, inlen: nat, outbuf: array<Byte>, codelen: nat, rawlen: nat)
    returns (codelen': nat, rawlen': nat)
    requires inp != outbuf && outbuf.Length == BUF_SIZE && codelen + 1 < inlen <= inp.Length && rawlen < BUF_SIZE
    modifies outbuf
    ensures codelen < codelen' <= inlen && rawlen <= rawlen' <= BUF_SIZE
    ensures rawlen' < BUF_SIZE ==>
              old(outbuf[..rawlen]) + Unpack(inp[codelen..inlen]) == outbuf[..rawlen'] + Unpack(inp[codelen'..inlen])
    ensures rawlen' == BUF_SIZE ==> BUF_SIZE <= rawlen + |Unpack(inp[codelen..inlen])|
  {
    var lenbyte := Signed(inp[codelen]);
    if lenbyte == -128 {
      assert inp[codelen..inlen][1..] == inp[codelen + 1..inlen];
      return codelen + 1, rawlen;
    }
    if lenbyte < 0 {
      codelen', rawlen' := DecodeRun(inp, inlen, outbuf, codelen, rawlen);
    } else {
      codelen', rawlen' := DecodeLiteral(inp, inlen, outbuf, codelen, rawlen);
    }
  }

  lemma LiteralUnpacks(s: seq<Byte>, from: nat, to: nat)
    requires from + 1 < to <= |s| && s[from] < 128
    ensures var m := from + 1 + Min(1 + s[from], to - from - 1);
            m <= to && Unpack(s[from..to]) == s[from + 1..m] + Unpack(s[m..to])
  {
    var n := Min(1 + s[from], to - from - 1);
    SubSlice(s, from, to, 1, 1 + n);
    SubSlice(s, from, to, 1 + n, to - from);
    assert s[from..to][0] == s[from];
  }

  lemma Joined(whole: seq<Byte>, k: nat, a: seq<Byte>, b: seq<Byte>, c: seq<Byte>)
    requires k <= |whole| && whole[..k] == a && whole[k..] == b
    ensures a + (b + c) == whole + c
  {
    assert whole == a + b;
  }

  method CopyOut(outbuf: array<Byte>, rawlen: nat, out: array<Byte>)
    requires outbuf != out && rawlen <= outbuf.Length && rawlen <= out.Length
    modifies out
    ensures out[..] == old(outbuf[..rawlen]) + old(out[rawlen..])
  {
    for i := 0 to rawlen
      invariant out[..i] == outbuf[..i] == old(outbuf[..i])
      invariant out[i..] == old(out[i..])
    {
      out[i] := outbuf[i];
    }
    assert out[..] == out[..rawlen] + out[rawlen..];
  }

  /** Decode inp[..inlen] to the front of out, which may be the same array. */
  method DecodePackbits(inp: array<Byte>, inlen: nat, out: array<Byte>) returns (r: Result<nat, DecodeError>)
    requires inlen <= inp.Length
    requires Decoded(inp[..inlen]).Ok? ==> |Unpack(inp[..inlen])| <= out.Length
    modifies out
    ensures match old(Decoded(inp[..inlen]))
            case Err(e) => r == Err(e) && out[..] == old(out[..])
            case Ok(data) => r == Ok(|data|) && out[..] == data + old(out[..])[|data|..]
  {
    if inlen > BUF_SIZE { return Err(InputTooLong); }
    var outbuf := new Byte[BUF_SIZE];
    var codelen, rawlen := 0, 0;
    assert inp[0..inlen] == inp[..inlen];
    while codelen + 1 < inlen
      invariant codelen <= inlen && rawlen < BUF_SIZE
      invariant out[..] == old(out[..])
      invariant old(Unpack(inp[..inlen])) == outbuf[..rawlen] + Unpack(inp[codelen..inlen])
      decreases inlen - codelen
    {
      ghost var total := rawlen + |Unpack(inp[codelen..inlen])|;
      assert |old(Unpack(inp[..inlen]))| == total;
      codelen, rawlen := DecodePacket(inp, inlen, outbuf, codelen, rawlen);
      if rawlen >= BUF_SIZE { return Err(OutputTooLong); }
    }
    assert Unpack(inp[codelen..inlen]) == [];
    assert outbuf[..rawlen] == old(Unpack(inp[..inlen]));
    CopyOut(outbuf, rawlen, out);
    return Ok(rawlen);
  }
}
