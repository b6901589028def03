/** Reassembly over whole streams of fragments. */
module ReassemblyRuns {

  import opened Common
  import opened PackBits
  import opened Reassembly

  // ---------- raw images ----------

  predicate AllFit(frags: seq<Fragment>, fragmentSize: nat) {
    forall i :: 0 <= i < |frags| ==> Fits(frags[i], fragmentSize)
  }

  function RunImage(item: Item, fragmentSize: nat, frags: seq<Fragment>): (r: Option<Item>)
    requires |item.buffer| == BUF_SIZE && AllFit(frags, fragmentSize)
    ensures r.Some? ==> |r.value.buffer| == BUF_SIZE
    decreases |frags|
  {
    if frags == [] then Some(item)
    else match ImageStep(item, fragmentSize, frags[0])
      case None => None
      case Some(i1) => RunImage(i1, fragmentSize, frags[1..])
  }

  function LastArrivals(frags: seq<Fragment>): (n: nat) {
    if frags == [] then 0 else (if frags[0].fragNum == frags[0].fragTotal then 1 else 0) + LastArrivals(frags[1..])
  }

  /** How often a fragment number falls below the one before it; a last fragment makes the
      count start afresh. */
  function Drops(lastpkt: nat, frags: seq<Fragment>): (n: nat)
    decreases |frags|
  {
    if frags == [] then 0
    else
      var next := if frags[0].fragNum == frags[0].fragTotal then 0 else frags[0].fragNum;
      (if frags[0].fragNum < lastpkt then 1 else 0) + Drops(next, frags[1..])
  }

  /** Over any stream, one image is written for each last fragment and one for each drop. */
  lemma {:induction false} ImagesWritten(item: Item, fragmentSize: nat, frags: seq<Fragment>)
    requires |item.buffer| == BUF_SIZE && AllFit(frags, fragmentSize)
    requires RunImage(item, fragmentSize, frags).Some?
    ensures |RunImage(item, fragmentSize, frags).value.images|
         == |item.images| + LastArrivals(frags) + Drops(item.lastpkt, frags)
    decreases |frags|
  {
    if frags != [] {
      ImagesWritten(ImageStep(item, fragmentSize, frags[0]).value, fragmentSize, frags[1..]);
    }
  }

  /** f is one of the total fragments of image img. */
  predicate Carries(f: Fragment, img: seq<Byte>, fragmentSize: nat, total: nat) {
    && f.fragTotal == total && 1 <= f.fragNum <= total
    && (f.fragNum - 1) * fragmentSize <= |img|
    && f.data == img[(f.fragNum - 1) * fragmentSize..Min(f.fragNum * fragmentSize, |img|)]
  }

  predicate Agrees(buffer: seq<Byte>, img: seq<Byte>, lo: int, hi: int)
    requires |img| <= |buffer|
  {
    forall j :: 0 <= j < |img| && lo <= j < hi ==> buffer[j] == img[j]
  }

  /** The part of the buffer that fragment number n fills agrees with the image. */
  predicate Holds(buffer: seq<Byte>, img: seq<Byte>, fragmentSize: nat, n: nat)
    requires |img| <= |buffer|
  {
    Agrees(buffer, img, (n - 1) * fragmentSize, n * fragmentSize)
  }

  lemma PutAgrees(buffer: seq<Byte>, img: seq<Byte>, lo: nat, hi: nat, lo': int, hi': int)
    requires |img| <= |buffer| && lo <= |img| && lo <= hi
    ensures var b := Put(buffer, lo, img[lo..Min(hi, |img|)]);
            Agrees(b, img, lo, hi) && (Agrees(buffer, img, lo', hi') ==> Agrees(b, img, lo', hi'))
  {
    var data := img[lo..Min(hi, |img|)];
    assert forall j :: lo <= j < lo + |data| ==> data[j - lo] == img[j];
  }

  function TotalBytes(frags: seq<Fragment>): (n: nat) {
    if frags == [] then 0 else |frags[0].data| + TotalBytes(frags[1..])
  }

  /** Fragments of one image, none of them the last, in non-decreasing order from lastpkt;
      repetitions are allowed. */
  predicate Body(frags: seq<Fragment>, img: seq<Byte>, fragmentSize: nat, total: nat, lastpkt: nat)
    decreases |frags|
  {
    frags == [] ||
    (Carries(frags[0], img, fragmentSize, total) && lastpkt <= frags[0].fragNum < total
     && Body(frags[1..], img, fragmentSize, total, frags[0].fragNum))
  }

  /** Writing a fragment of img makes its part right and spoils no other. */
  lemma PutHolds(buffer: seq<Byte>, img: seq<Byte>, fragmentSize: nat, n: nat)
    requires |img| <= |buffer| && n >= 1 && (n - 1) * fragmentSize <= |img|
    ensures (n - 1) * fragmentSize <= Min(n * fragmentSize, |img|)
    ensures var data := img[(n - 1) * fragmentSize..Min(n * fragmentSize, |img|)];
            HoldsMore(buffer, Put(buffer, (n - 1) * fragmentSize, data), img, fragmentSize, n)
  {
    var lo := (n - 1) * fragmentSize;
    var hi := lo + fragmentSize;
    assert n * fragmentSize == hi;
    var b := Put(buffer, lo, img[lo..Min(hi, |img|)]);
    PutAgrees(buffer, img, lo, hi, lo, hi);
    forall m: nat | Holds(buffer, img, fragmentSize, m) ensures Holds(b, img, fragmentSize, m) {
      PutAgrees(buffer, img, lo, hi, (m - 1) * fragmentSize, m * fragmentSize);
    }
  }

  /** b holds fragment n, and whatever fragments buffer does. */
  ghost predicate HoldsMore(buffer: seq<Byte>, b: seq<Byte>, img: seq<Byte>, fragmentSize: nat, n: nat)
    requires |img| <= |buffer| == |b|
  {
    && Holds(b, img, fragmentSize, n)
    && forall m: nat {:trigger Holds(b, img, fragmentSize, m)} ::
         Holds(buffer, img, fragmentSize, m) ==> Holds(b, img, fragmentSize, m)
  }

  lemma Written(item: Item, fragmentSize: nat, f: Fragment, img: seq<Byte>, total: nat)
    requires |item.buffer| == BUF_SIZE && |img| <= BUF_SIZE && Fits(f, fragmentSize) && item.recvBytes < BUF_SIZE
    requires Carries(f, img, fragmentSize, total)
    ensures var r := ImageStep(item, fragmentSize, f);
            r.Some? && HoldsMore(item.buffer, r.value.buffer, img, fragmentSize, f.fragNum)
  {
    PutHolds(item.buffer, img, fragmentSize, f.fragNum);
  }

  lemma BodyStep(item: Item, fragmentSize: nat, f: Fragment, img: seq<Byte>, total: nat)
    requires |item.buffer| == BUF_SIZE && |img| <= BUF_SIZE && Fits(f, fragmentSize) && item.recvBytes < BUF_SIZE
    requires Carries(f, img, fragmentSize, total) && item.lastpkt <= f.fragNum < total
    ensures var r := ImageStep(item, fragmentSize, f);
            && r.Some? && r.value.lastpkt == f.fragNum && r.value.recvBytes == item.recvBytes + |f.data|
            && r.value.incomplete
            && r.value.images == item.images && HoldsMore(item.buffer, r.value.buffer, img, fragmentSize, f.fragNum)
  {
    Written(item, fragmentSize, f, img, total);
  }

  lemma {:induction false} BodyRuns(item: Item, fragmentSize: nat, frags: seq<Fragment>, img: seq<Byte>, total: nat)
    requires |item.buffer| == BUF_SIZE && |img| <= BUF_SIZE && AllFit(frags, fragmentSize)
    requires Body(frags, img, fragmentSize, total, item.lastpkt)
    requires item.recvBytes + TotalBytes(frags) < BUF_SIZE
    ensures var r := RunImage(item, fragmentSize, frags);
            && r.Some? && r.value.images == item.images && r.value.recvBytes == item.recvBytes + TotalBytes(frags)
            && (item.lastpkt <= total ==> r.value.lastpkt <= total) && (frags != [] ==> r.value.incomplete)
            && (forall n: nat :: Holds(item.buffer, img, fragmentSize, n) ==>
                  Holds(r.value.buffer, img, fragmentSize, n))
            && (forall i :: 0 <= i < |frags| ==> Holds(r.value.buffer, img, fragmentSize, frags[i].fragNum))
    decreases |frags|
  {
    if frags != [] {
      BodyStep(item, fragmentSize, frags[0], img, total);
      var i1 := ImageStep(item, fragmentSize, frags[0]).value;
      BodyRuns(i1, fragmentSize, frags[1..], img, total);
      var b := RunImage(item, fragmentSize, frags).value.buffer;
      forall i | 0 <= i < |frags| ensures Holds(b, img, fragmentSize, frags[i].fragNum) {
        if i > 0 { assert frags[i] == frags[1..][i - 1]; }
      }
    }
  }

  /** Once BUF_SIZE bytes have come in for one image the program has given up, or will with
      the next fragment. */
  lemma {:induction false} BodyStuck(item: Item, fragmentSize: nat, frags: seq<Fragment>, img: seq<Byte>, total: nat)
    requires |item.buffer| == BUF_SIZE && |img| <= BUF_SIZE && AllFit(frags, fragmentSize)
    requires Body(frags, img, fragmentSize, total, item.lastpkt)
    requires item.recvBytes + TotalBytes(frags) >= BUF_SIZE
    ensures RunImage(item, fragmentSize, frags).Some? ==>
              RunImage(item, fragmentSize, frags).value.recvBytes >= BUF_SIZE
    decreases |frags|
  {
    if frags != [] && item.recvBytes < BUF_SIZE {
      BodyStep(item, fragmentSize, frags[0], img, total);
      BodyStuck(ImageStep(item, fragmentSize, frags[0]).value, fragmentSize, frags[1..], img, total);
    }
  }

  lemma {:induction false} RunSnoc(item: Item, fragmentSize: nat, frags: seq<Fragment>, f: Fragment)
    requires |item.buffer| == BUF_SIZE && AllFit(frags, fragmentSize) && Fits(f, fragmentSize)
    ensures AllFit(frags + [f], fragmentSize)
    ensures RunImage(item, fragmentSize, frags + [f]) ==
            match RunImage(item, fragmentSize, frags) case None => None case Some(i1) => ImageStep(i1, fragmentSize, f)
    decreases |frags|
  {
    var all := frags + [f];
    if frags == [] {
      assert all == [f] && all[1..] == [];
      var r := ImageStep(item, fragmentSize, f);
      assert r.Some? ==> RunImage(r.value, fragmentSize, []) == r;
    } else {
      assert all[0] == frags[0] && all[1..] == frags[1..] + [f];
      var r := ImageStep(item, fragmentSize, frags[0]);
      if r.Some? { RunSnoc(r.value, fragmentSize, frags[1..], f); }
    }
  }

  /** All numbers below total occur. */
  predicate Covers(frags: seq<Fragment>, total: nat) {
    forall n :: 1 <= n < total ==> Occurs(frags, n)
  }

  predicate Occurs(frags: seq<Fragment>, n: int) {
    exists i :: 0 <= i < |frags| && frags[i].fragNum == n
  }

  lemma HoldsAll(buffer: seq<Byte>, img: seq<Byte>, fragmentSize: nat, total: nat)
    requires |img| <= |buffer| && fragmentSize > 0 && |img| <= total * fragmentSize
    requires forall n :: 1 <= n <= total ==> Holds(buffer, img, fragmentSize, n)
    ensures buffer[..|img|] == img
  {
    forall j | 0 <= j < |img| ensures buffer[j] == img[j] {
      var n := j / fragmentSize + 1;
      Within(j, fragmentSize, total);
      assert Holds(buffer, img, fragmentSize, n);
    }
  }

  lemma Within(j: nat, size: nat, total: nat)
    requires size > 0 && j < total * size
    ensures 1 <= j / size + 1 <= total && (j / size) * size <= j < (j / size + 1) * size
  {
    assert j == (j / size) * size + j % size;
    MulMonotone(total, j / size, size);
  }

  lemma MulMonotone(a: nat, b: nat, c: nat)
    ensures a <= b ==> a * c <= b * c
  {
  }

  /** If all fragments of an image arrive in non-decreasing order, repetitions included, and
      the last one once, the image is written whole and everything is as at the start,
      unless the bytes that came in before the last fragment filled the buffer: then, and
      only then, the program gives up.  What was there before counts, if the numbers go on
      from it. */
  lemma WholeImage(item: Item, fragmentSize: nat, body: seq<Fragment>, last: Fragment, img: seq<Byte>, total: nat)
    requires |item.buffer| == BUF_SIZE && item.lastpkt <= total && fragmentSize > 0
    requires |img| <= BUF_SIZE && |img| <= total * fragmentSize
    requires AllFit(body, fragmentSize) && Fits(last, fragmentSize)
    requires Body(body, img, fragmentSize, total, item.lastpkt) && Covers(body, total)
    requires Carries(last, img, fragmentSize, total) && last.fragNum == total
    ensures AllFit(body + [last], fragmentSize)
    ensures var r := RunImage(item, fragmentSize, body + [last]);
            && (r.Some? <==> item.recvBytes + TotalBytes(body) < BUF_SIZE)
            && (r.Some? ==> WrittenWhole(r.value, item.images, img))
  {
    RunSnoc(item, fragmentSize, body, last);
    if item.recvBytes + TotalBytes(body) < BUF_SIZE {
      BodyRuns(item, fragmentSize, body, img, total);
      var i1 := RunImage(item, fragmentSize, body).value;
      LastStep(i1, fragmentSize, body, last, img, total);
    } else {
      BodyStuck(item, fragmentSize, body, img, total);
    }
  }

  /** img is the latest image written, after those before, and all is as at the start. */
  predicate WrittenWhole(r: Item, before: seq<seq<Byte>>, img: seq<Byte>) {
    && r.recvBytes == 0 && r.lastpkt == 0 && !r.incomplete
    && r.images == before + [r.buffer] && |img| <= |r.buffer| && r.buffer[..|img|] == img
  }

  /** A number below the one before writes out the unfinished image as it is; from there on
      all goes as it would from a fresh start. */
  lemma DropStartsAfresh(item: Item, fragmentSize: nat, f: Fragment)
    requires |item.buffer| == BUF_SIZE && Fits(f, fragmentSize) && item.recvBytes < BUF_SIZE && f.fragNum < item.lastpkt
    ensures ImageStep(item, fragmentSize, f)
         == ImageStep(item.(recvBytes := 0, lastpkt := 0, images := item.images + [item.buffer]), fragmentSize, f)
  {
  }

  /** An image that follows an unfinished one, and starts with a lower number than that one
      had reached: the unfinished one is written out with the buffer as it was, and the new
      one whole after it, exactly if its own bytes before the last fragment stay under
      BUF_SIZE. */
  lemma WholeAfterUnfinished(item: Item, fragmentSize: nat, body: seq<Fragment>, last: Fragment,
                             img: seq<Byte>, total: nat)
    requires |item.buffer| == BUF_SIZE && item.recvBytes < BUF_SIZE && fragmentSize > 0
    requires (if body == [] then last.fragNum else body[0].fragNum) < item.lastpkt
    requires |img| <= BUF_SIZE && |img| <= total * fragmentSize
    requires AllFit(body, fragmentSize) && Fits(last, fragmentSize)
    requires Body(body, img, fragmentSize, total, 0) && Covers(body, total)
    requires Carries(last, img, fragmentSize, total) && last.fragNum == total
    ensures AllFit(body + [last], fragmentSize)
    ensures var r := RunImage(item, fragmentSize, body + [last]);
            && (r.Some? <==> TotalBytes(body) < BUF_SIZE)
            && (r.Some? ==> WrittenWhole(r.value, item.images + [item.buffer], img))
  {
    var anew := item.(recvBytes := 0, lastpkt := 0, images := item.images + [item.buffer]);
    WholeImage(anew, fragmentSize, body, last, img, total);
    var all := body + [last];
    assert all[0] == if body == [] then last else body[0];
    DropStartsAfresh(item, fragmentSize, all[0]);
    assert RunImage(item, fragmentSize, all) == RunImage(anew, fragmentSize, all);
  }

  function Again(f: Fragment, n: nat): (r: seq<Fragment>)
    ensures |r| == n
  {
    if n == 0 then [] else [f] + Again(f, n - 1)
  }

  lemma {:induction false} AgainIsBody(f: Fragment, n: nat, img: seq<Byte>, lastpkt: nat)
    requires Fits(f, 40) && Carries(f, img, 40, 2) && lastpkt <= f.fragNum < 2 && |f.data| == 40
    ensures AllFit(Again(f, n), 40) && Body(Again(f, n), img, 40, 2, lastpkt) && TotalBytes(Again(f, n)) == 40 * n
  {
    if n > 0 {
      AgainIsBody(f, n - 1, img, f.fragNum);
      assert Again(f, n)[1..] == Again(f, n - 1);
    }
  }

  /** An image of two fragments of 40 bytes, the first of which comes n times: from 1639
      times on it fills the buffer, and the program gives up. */
  lemma RepeatsFillBuffer(item: Item, img: seq<Byte>, n: nat)
    requires |item.buffer| == BUF_SIZE && item.recvBytes == 0 && item.lastpkt == 0 && |img| == 80 && n > 0
    ensures var body, last := Again(Fragment(1, 2, img[..40]), n), Fragment(2, 2, img[40..]);
            && AllFit(body + [last], 40) && Body(body, img, 40, 2, 0) && Covers(body, 2) && Carries(last, img, 40, 2)
            && (RunImage(item, 40, body + [last]) == None <==> n >= 1639)
  {
    var first, last := Fragment(1, 2, img[..40]), Fragment(2, 2, img[40..]);
    var body := Again(first, n);
    AgainIsBody(first, n, img, 0);
    assert body[0].fragNum == 1;
    assert forall k :: 1 <= k < 2 ==> Occurs(body, k);
    WholeImage(item, 40, body, last, img, 2);
  }

  lemma AllHeld(buffer: seq<Byte>, b: seq<Byte>, img: seq<Byte>, fragmentSize: nat, body: seq<Fragment>, total: nat)
    requires |img| <= |buffer| == |b| && HoldsMore(buffer, b, img, fragmentSize, total) && Covers(body, total)
    requires forall i :: 0 <= i < |body| ==> Holds(buffer, img, fragmentSize, body[i].fragNum)
    ensures forall n :: 1 <= n <= total ==> Holds(b, img, fragmentSize, n)
  {
    forall n | 1 <= n <= total ensures Holds(b, img, fragmentSize, n) {
      if n < total {
        assert Occurs(body, n);
        var i :| 0 <= i < |body| && body[i].fragNum == n;
        assert Holds(buffer, img, fragmentSize, body[i].fragNum);
      }
    }
  }

  lemma LastStep(i1: Item, fragmentSize: nat, body: seq<Fragment>, f: Fragment, img: seq<Byte>, total: nat)
    requires |i1.buffer| == BUF_SIZE && |img| <= BUF_SIZE && Fits(f, fragmentSize) && i1.recvBytes < BUF_SIZE
    requires fragmentSize > 0 && |img| <= total * fragmentSize && Covers(body, total)
    requires Carries(f, img, fragmentSize, total) && f.fragNum == total && i1.lastpkt <= total
    requires forall i :: 0 <= i < |body| ==> Holds(i1.buffer, img, fragmentSize, body[i].fragNum)
    ensures var r := ImageStep(i1, fragmentSize, f);
            r.Some? && WrittenWhole(r.value, i1.images, img)
  {
    var b := ImageStep(i1, fragmentSize, f).value.buffer;
    Written(i1, fragmentSize, f, img, total);
    AllHeld(i1.buffer, b, img, fragmentSize, body, total);
    HoldsAll(b, img, fragmentSize, total);
  }

  // ---------- PackBits images ----------

  predicate PiecesFit(recvBytes: nat, ps: seq<Piece>) {
    recvBytes + |Payload(ps)| <= BUF_SIZE
  }

  function Payload(ps: seq<Piece>): (r: seq<Byte>) {
    if ps == [] then [] else ps[0].data + Payload(ps[1..])
  }

  /** All pieces but the last of one image. */
  predicate AllMore(ps: seq<Piece>) {
    forall i :: 0 <= i < |ps| ==> ps[i].moreLeft
  }

  function RunPieces(item: Item, ps: seq<Piece>): (r: Option<Item>)
    requires |item.buffer| == BUF_SIZE && AllMore(ps) && PiecesFit(item.recvBytes, ps)
    ensures r.Some? ==> |r.value.buffer| == BUF_SIZE && r.value.recvBytes == item.recvBytes + |Payload(ps)|
    decreases |ps|
  {
    if ps == [] then Some(item)
    else match PieceStep(item, ps[0])
      case None => None
      case Some(i1) => RunPieces(i1, ps[1..])
  }

  /** Each sequence number repeats the one before it or is the next. */
  predicate Chained(lastpkt: nat, ps: seq<Piece>)
    decreases |ps|
  {
    ps == [] || ((ps[0].seqNum == lastpkt || ps[0].seqNum == lastpkt + 1) && Chained(ps[0].seqNum, ps[1..]))
  }

  function LastSeq(lastpkt: nat, ps: seq<Piece>): (n: nat) {
    if ps == [] then lastpkt else ps[|ps| - 1].seqNum
  }

  /** The pieces before the last just pile up, as long as their numbers are in order and the
      buffer is not full. */
  lemma {:induction false} PiecesPileUp(item: Item, ps: seq<Piece>)
    requires |item.buffer| == BUF_SIZE && AllMore(ps) && PiecesFit(item.recvBytes, ps)
    requires item.recvBytes + |Payload(ps)| < BUF_SIZE
    ensures var r := RunPieces(item, ps);
            && (r.Some? <==> Chained(item.lastpkt, ps))
            && (r.Some? ==> && (ps != [] ==> r.value.incomplete)
                            && r.value.images == item.images && r.value.lastpkt == LastSeq(item.lastpkt, ps)
                            && r.value.buffer[..r.value.recvBytes] == item.buffer[..item.recvBytes] + Payload(ps))
    decreases |ps|
  {
    if ps != [] {
      var r := PieceStep(item, ps[0]);
      if r.Some? {
        var i1 := r.value;
        assert i1.buffer[..i1.recvBytes] == item.buffer[..item.recvBytes] + ps[0].data;
        PiecesPileUp(i1, ps[1..]);
        Assoc(item.buffer[..item.recvBytes], ps[0].data, Payload(ps[1..]));
      }
    }
  }

  /** One PackBits image, from a fresh start.  What is written is the decoding of the
      payloads in the order they came, and everything is as at the start.  The program gives
      up exactly when a number is neither the one before nor the next, when the buffer fills
      before the last piece, or when the payloads do not decode. */
  lemma PackBitsImage(item: Item, ps: seq<Piece>, last: Piece)
    requires |item.buffer| == BUF_SIZE && item.recvBytes == 0 && item.lastpkt == 0
    requires AllMore(ps) && !last.moreLeft && |Payload(ps)| + |last.data| <= BUF_SIZE && |Payload(ps)| < BUF_SIZE
    ensures var before := RunPieces(item, ps);
            var all := Payload(ps) + last.data;
            var r := if before.None? then None else PieceStep(before.value, last);
            && (r.Some? <==> Chained(0, ps) && Chained(LastSeq(0, ps), [last]) && |Unpack(all)| < BUF_SIZE)
            && (r.Some? ==>
                  && r.value.recvBytes == 0 && r.value.lastpkt == 0 && !r.value.incomplete
                  && r.value.images == item.images + [r.value.buffer]
                  && r.value.buffer[..|Unpack(all)|] == Unpack(all))
  {
    PiecesPileUp(item, ps);
    var before := RunPieces(item, ps);
    if before.Some? {
      var i0 := before.value;
      assert i0.buffer[..i0.recvBytes] == Payload(ps);
      var i1 := i0.(buffer := Put(i0.buffer, i0.recvBytes, last.data), recvBytes := i0.recvBytes + |last.data|);
      assert i1.buffer[..i1.recvBytes] == Payload(ps) + last.data;
      if |Unpack(Payload(ps) + last.data)| < BUF_SIZE {
        var data := Unpack(Payload(ps) + last.data);
        assert Put(i1.buffer, 0, data)[..|data|] == data;
      }
    }
  }

  lemma OneLiteral(x: Byte, rest: seq<Byte>)
    ensures Unpack([0, x] + rest) == [x] + Unpack(rest)
  {
    UnpackPacket(Literal([x]), rest);
    assert Encode(Literal([x])) == [0, x];
  }

  /** The first n payloads that the mote sent, joined. */
  function SentUpTo(sent: seq<seq<Byte>>, n: nat): (r: seq<Byte>)
    requires n <= |sent|
  {
    if n == 0 then [] else SentUpTo(sent, n - 1) + sent[n - 1]
  }

  /** Every piece carries the payload that was sent under its number. */
  predicate CarrySent(ps: seq<Piece>, sent: seq<seq<Byte>>) {
    forall i :: 0 <= i < |ps| ==> 1 <= ps[i].seqNum <= |sent| && ps[i].data == sent[ps[i].seqNum - 1]
  }

  /** No piece with anything in it has the number of the one before. */
  predicate NoneRepeated(lastpkt: nat, ps: seq<Piece>)
    decreases |ps|
  {
    ps == [] || ((ps[0].seqNum == lastpkt ==> ps[0].data == []) && NoneRepeated(ps[0].seqNum, ps[1..]))
  }

  /** The bytes that an accepted run collects are those that were sent, in order, exactly
      when no piece is repeated; otherwise there are more of them. */
  lemma {:induction false} CollectsSent(lastpkt: nat, ps: seq<Piece>, sent: seq<seq<Byte>>)
    requires lastpkt <= |sent| && Chained(lastpkt, ps) && CarrySent(ps, sent)
    ensures var (before, after) := (SentUpTo(sent, lastpkt), SentUpTo(sent, LastSeq(lastpkt, ps)));
            if NoneRepeated(lastpkt, ps) then before + Payload(ps) == after
            else |before| + |Payload(ps)| > |after|
    decreases |ps|
  {
    var before := SentUpTo(sent, lastpkt);
    assert before + [] == before;
    if ps != [] {
      var p, rest := ps[0], Payload(ps[1..]);
      CollectsSent(p.seqNum, ps[1..], sent);
      assert LastSeq(lastpkt, ps) == LastSeq(p.seqNum, ps[1..]);
      Assoc(before, p.data, rest);
      if p.seqNum == lastpkt {
        assert |p.data + rest| == |p.data| + |rest|;
      } else {
        assert SentUpTo(sent, p.seqNum) == before + p.data;
      }
    }
  }

  lemma {:induction false} PayloadJoins(ps: seq<Piece>, p: Piece)
    ensures Payload(ps + [p]) == Payload(ps) + p.data
  {
    if ps == [] {
      assert [] + [p] == [p] && [p][1..] == [] && p.data + [] == p.data == [] + p.data;
    } else {
      PayloadJoins(ps[1..], p);
      assert (ps + [p])[1..] == ps[1..] + [p];
      Assoc(ps[0].data, Payload(ps[1..]), p.data);
    }
  }

  lemma {:induction false} ChainJoins(lastpkt: nat, ps: seq<Piece>, p: Piece)
    ensures Chained(lastpkt, ps + [p]) <==> Chained(lastpkt, ps) && Chained(LastSeq(lastpkt, ps), [p])
    decreases |ps|
  {
    if ps == [] {
      assert [] + [p] == [p];
    } else {
      ChainJoins(ps[0].seqNum, ps[1..], p);
      assert (ps + [p])[1..] == ps[1..] + [p];
      assert LastSeq(lastpkt, ps) == LastSeq(ps[0].seqNum, ps[1..]);
    }
  }

  lemma AllAsSent(ps: seq<Piece>, last: Piece, sent: seq<seq<Byte>>)
    requires Chained(0, ps + [last]) && CarrySent(ps + [last], sent) && last.seqNum == |sent|
    ensures Payload(ps) + last.data == SentUpTo(sent, |sent|) <==> NoneRepeated(0, ps + [last])
  {
    PayloadJoins(ps, last);
    CollectsSent(0, ps + [last], sent);
    assert SentUpTo(sent, 0) + Payload(ps + [last]) == Payload(ps + [last]);
  }

  /** Of a run that writes an image: the bytes decoded are all those that the mote sent
      exactly when no piece was repeated. */
  lemma ImageIsAsSent(item: Item, ps: seq<Piece>, last: Piece, sent: seq<seq<Byte>>)
    requires |item.buffer| == BUF_SIZE && item.recvBytes == 0 && item.lastpkt == 0
    requires AllMore(ps) && !last.moreLeft && |Payload(ps)| + |last.data| <= BUF_SIZE && |Payload(ps)| < BUF_SIZE
    requires CarrySent(ps + [last], sent) && last.seqNum == |sent|
    ensures var before := RunPieces(item, ps);
            var r := if before.None? then None else PieceStep(before.value, last);
            var all := SentUpTo(sent, |sent|);
            r.Some? ==>
              && (Payload(ps) + last.data == all <==> NoneRepeated(0, ps + [last]))
              && (NoneRepeated(0, ps + [last]) ==>
                    |Unpack(all)| < BUF_SIZE && r.value.buffer[..|Unpack(all)|] == Unpack(all))
  {
    PackBitsImage(item, ps, last);
    ChainJoins(0, ps, last);
    if Chained(0, ps + [last]) { AllAsSent(ps, last, sent); }
  }

  lemma LiteralsUnpack(x: Byte, y: Byte)
    ensures Unpack([0, x] + [0, y]) == [x, y] && Unpack(([0, x] + [0, x]) + [0, y]) == [x, x, y]
  {
    OneLiteral(y, []);
    OneLiteral(x, [0, y]);
    OneLiteral(x, [0, x] + [0, y]);
    Assoc([0, x], [0, x], [0, y]);
    assert [0, y] + [] == [0, y] && Unpack([]) == [];
  }

  lemma BothSent(a: seq<Byte>, b: seq<Byte>)
    ensures SentUpTo([a, b], 2) == a + b
  {
    assert SentUpTo([a, b], 0) + a == a;
    assert SentUpTo([a, b], 1) == a;
  }

  /** A run with a repeat: the first of two pieces comes twice, is accepted, and what is
      written has its byte twice. */
  lemma RepeatIsUsedTwice(item: Item, x: Byte, y: Byte)
    requires |item.buffer| == BUF_SIZE && item.recvBytes == 0 && item.lastpkt == 0
    ensures var (first, last, sent) := (Piece(1, true, [0, x]), Piece(2, false, [0, y]), [[0, x], [0, y]]);
            && CarrySent([first, first] + [last], sent) && Unpack(SentUpTo(sent, 2)) == [x, y]
            && AllMore([first, first]) && WritesTwice(item, [first, first], last, x, y)
  {
    var first, last := Piece(1, true, [0, x]), Piece(2, false, [0, y]);
    assert CarrySent([first, first] + [last], [[0, x], [0, y]]);
    TwoPieces(first, [0, x]);
    BothSent([0, x], [0, y]);
    LiteralsUnpack(x, y);
    Repeated(item, [first, first], last, x, y);
  }

  /** The run is accepted, and its image has x twice and then y. */
  ghost predicate WritesTwice(item: Item, ps: seq<Piece>, last: Piece, x: Byte, y: Byte)
    requires |item.buffer| == BUF_SIZE && item.recvBytes == 0 && AllMore(ps)
  {
    && |Payload(ps)| + |last.data| <= BUF_SIZE && RunPieces(item, ps).Some?
    && PieceStep(RunPieces(item, ps).value, last).Some?
    && PieceStep(RunPieces(item, ps).value, last).value.buffer[..3] == [x, x, y]
  }

  lemma Repeated(item: Item, ps: seq<Piece>, last: Piece, x: Byte, y: Byte)
    requires |item.buffer| == BUF_SIZE && item.recvBytes == 0 && item.lastpkt == 0
    requires AllMore(ps) && Payload(ps) == [0, x] + [0, x] && Chained(0, ps) && LastSeq(0, ps) == 1
    requires last == Piece(2, false, [0, y])
    ensures WritesTwice(item, ps, last, x, y)
  {
    LiteralsUnpack(x, y);
    PackBitsImage(item, ps, last);
  }

  lemma TwoPieces(p: Piece, data: seq<Byte>)
    requires p.data == data && p.seqNum == 1
    ensures Payload([p, p]) == data + data && Chained(0, [p, p]) && LastSeq(0, [p, p]) == 1
  {
    assert [p, p][1..] == [p] && [p][1..] == [];
    assert Payload([p]) == data by { assert data + [] == data; }
  }
}
