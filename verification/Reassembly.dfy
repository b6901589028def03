/** Putting an image back together from the fragments one mote sends. */
module Reassembly {

  import opened Common
  import opened PackBits

  /** What is kept per mote.  images holds the buffer as it was each time an image was
      written out. */
  datatype Item = Item(buffer: seq<Byte>, recvBytes: nat, lastpkt: nat, incomplete: bool, images: seq<seq<Byte>>)

  datatype Fragment = Fragment(fragNum: nat, fragTotal: nat, data: seq<Byte>)

  /** A PackBits fragment; moreLeft is false in the last one of an image. */
  datatype Piece = Piece(seqNum: nat, moreLeft: bool, data: seq<Byte>)

  function Put(buffer: seq<Byte>, at: nat, data: seq<Byte>): (r: seq<Byte>)
    requires at + |data| <= |buffer|
    ensures |r| == |buffer|
    ensures forall i :: 0 <= i < |r| ==> r[i] == if at <= i < at + |data| then data[i - at] else buffer[i]
  {
    buffer[..at] + data + buffer[at + |data|..]
  }

  /** The fragment lies inside the buffer. */
  predicate Fits(f: Fragment, fragmentSize: nat) {
    1 <= f.fragNum && (f.fragNum - 1) * fragmentSize + |f.data| <= BUF_SIZE
  }

  function Output(item: Item): (r: Item) {
    item.(images := item.images + [item.buffer])
  }

  /** None stands for the program giving up. */
  function ImageStep(item: Item, fragmentSize: nat, f: Fragment): (r: Option<Item>)
    requires |item.buffer| == BUF_SIZE && Fits(f, fragmentSize)
    ensures r.Some? ==> |r.value.buffer| == BUF_SIZE
  {
    if item.recvBytes >= BUF_SIZE then None
    else
      var i1 := if f.fragNum < item.lastpkt then Output(item).(recvBytes := 0) else item;
      var i2 := i1.(buffer := Put(i1.buffer, (f.fragNum - 1) * fragmentSize, f.data),
                    recvBytes := i1.recvBytes + |f.data|);
      if f.fragNum == f.fragTotal then Some(Output(i2.(incomplete := false)).(lastpkt := 0, recvBytes := 0))
      else Some(i2.(incomplete := true, lastpkt := f.fragNum))
  }

  function PieceStep(item: Item, p: Piece): (r: Option<Item>)
    requires |item.buffer| == BUF_SIZE && item.recvBytes + |p.data| <= BUF_SIZE
    ensures r.Some? ==> |r.value.buffer| == BUF_SIZE
  {
    if item.recvBytes >= BUF_SIZE then None
    else
      var i1 := item.(buffer := Put(item.buffer, item.recvBytes, p.data), recvBytes := item.recvBytes + |p.data|);
      if p.seqNum != item.lastpkt + 1 && p.seqNum != item.lastpkt then None
      else if p.moreLeft then Some(i1.(incomplete := true, lastpkt := p.seqNum))
      else Finished(i1)
  }

  /** The image written out, if what has come in decodes. */
  function Finished(item: Item): (r: Option<Item>)
    requires |item.buffer| == BUF_SIZE && item.recvBytes <= BUF_SIZE
    ensures r.Some? ==> |r.value.buffer| == BUF_SIZE
  {
    match Decoded(item.buffer[..item.recvBytes])
    case Err(_) => None
    case Ok(data) =>
      Some(Output(item.(buffer := Put(item.buffer, 0, data), incomplete := false)).(lastpkt := 0, recvBytes := 0))
  }

  class ResultItem {
    const buffer: array<Byte>
    var recvBytes: nat
    var lastpkt: nat
    var incomplete: bool
    var images: seq<seq<Byte>>

    constructor ()
      ensures fresh(buffer) && Valid() && buffer[..] == Repeat(BUF_SIZE, 0)
      ensures State() == Item(Repeat(BUF_SIZE, 0), 0, 0, false, [])
    {
      buffer := new Byte[BUF_SIZE](_ => 0);
      recvBytes, lastpkt, incomplete, images := 0, 0, false, [];
      new;
      assert buffer[..] == Repeat(BUF_SIZE, 0);
    }

    ghost predicate Valid()
      reads this
    {
      buffer.Length == BUF_SIZE
    }

    ghost function State(): Item
      reads this, buffer
    {
      Item(buffer[..], recvBytes, lastpkt, incomplete, images)
    }

    method OutputResult()
      modifies this
      ensures State() == Output(old(State()))
    {
      images := images + [buffer[..]];
    }

    method CopyIn(at: nat, data: seq<Byte>)
      requires Valid() && at + |data| <= BUF_SIZE
      modifies buffer
      ensures buffer[..] == Put(old(buffer[..]), at, data)
    {
      for i := 0 to |data|
        invariant forall j :: 0 <= j < BUF_SIZE ==>
                    buffer[j] == if at <= j < at + i then data[j - at] else old(buffer[j])
      {
        buffer[at + i] := data[i];
      }
    }

    /** A fragment of a raw image arrives. */
    method ProcessImage(f: Fragment, fragmentSize: nat) returns (ok: bool)
      requires Valid() && Fits(f, fragmentSize)
      modifies this, buffer
      ensures Valid()
      ensures ok <==> ImageStep(old(State()), fragmentSize, f).Some?
      ensures ok ==> State() == ImageStep(old(State()), fragmentSize, f).value
    {
      if recvBytes >= BUF_SIZE { return false; }
      if f.fragNum < lastpkt {
        OutputResult();
        recvBytes := 0;
      }
      CopyIn((f.fragNum - 1) * fragmentSize, f.data);
      recvBytes := recvBytes + |f.data|;
      if f.fragNum == f.fragTotal {
        incomplete := false;
        OutputResult();
        lastpkt := 0;
        recvBytes := 0;
      } else {
        incomplete := true;
        lastpkt := f.fragNum;
      }
      return true;
    }

    /** Decode what has been received to the front of the buffer. */
    method DecodeInPlace() returns (ok: bool)
      requires Valid() && recvBytes <= BUF_SIZE
      modifies buffer
      ensures match Decoded(old(buffer[..])[..recvBytes])
              case Err(_) => !ok
              case Ok(data) => ok && |data| <= BUF_SIZE && buffer[..] == Put(old(buffer[..]), 0, data)
    {
      assert buffer[..][..recvBytes] == buffer[..recvBytes];
      var r := DecodePackbits(buffer, recvBytes, buffer);
      ok := r.Ok?;
    }

    /** The last fragment has come: decode what there is, write it out and start afresh. */
    method FinishPackbits() returns (ok: bool)
      requires Valid() && recvBytes <= BUF_SIZE
      modifies this, buffer
      ensures ok <==> Finished(old(State())).Some?
      ensures ok ==> State() == Finished(old(State())).value
    {
      ok := DecodeInPlace();
      if !ok { return; }
      incomplete := false;
      OutputResult();
      lastpkt := 0;
      recvBytes := 0;
    }

    /** A fragment of a PackBits image arrives; the whole is decoded in place. */
    method ProcessPackbits(p: Piece) returns (ok: bool)
      requires Valid() && recvBytes + |p.data| <= BUF_SIZE
      modifies this, buffer
      ensures Valid()
      ensures ok <==> PieceStep(old(State()), p).Some?
      ensures ok ==> State() == PieceStep(old(State()), p).value
    {
      if recvBytes >= BUF_SIZE { return false; }
      CopyIn(recvBytes, p.data);
      recvBytes := recvBytes + |p.data|;
      if p.seqNum != lastpkt + 1 && p.seqNum != lastpkt { return false; }
      if p.moreLeft {
        incomplete := true;
        lastpkt := p.seqNum;
      } else {
        ok := FinishPackbits();
        return;
      }
      return true;
    }
  }
}
