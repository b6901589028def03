/** Building an install task in a byte buffer: a header of two bytes and then one attribute
    for each element. */
module TaskBuffer {

  import opened Common
  import opened LittleEndian
  import opened Tlv

  const TASK_INSTALL: Byte := 1
  const TASK_HEADER: nat := 2

  const ELEMENT_REBOOT: Word := 2
  const ELEMENT_COUNT: Word := 3
  const ELEMENT_ISSUE: Word := 5
  const ELEMENT_GET: Word := 6
  const ELEMENT_ACTUATE: Word := 7
  const ELEMENT_LOGICAL: Word := 12

  type Short = x: int | -0x8000 <= x < 0x8000

  datatype Element =
    | Issue(starttime: Long, period: Long, abst: Byte)
    | Count(tag: Word, count: Short, rate: Short)
    | Get(tag: Word, value: Word)
    | Actuate(chan: Byte, argtype: Byte, arg1: Word)
    | Reboot
    | Logical(result: Word, attr: Word, optype: Byte, argtype: Byte, arg1: Word)

  function Unsigned(x: Short): (r: Word) {
    if x < 0 then x + 0x1_0000 else x
  }

  function Signed(w: Word): (r: Short)
    ensures Unsigned(r) == w
  {
    if w < 0x8000 then w else w - 0x1_0000
  }

  function Code(e: Element): (r: Word) {
    match e
    case Issue(_, _, _) => ELEMENT_ISSUE
    case Count(_, _, _) => ELEMENT_COUNT
    case Get(_, _) => ELEMENT_GET
    case Actuate(_, _, _) => ELEMENT_ACTUATE
    case Reboot => ELEMENT_REBOOT
    case Logical(_, _, _, _, _) => ELEMENT_LOGICAL
  }

  /** The parameters as they lie in memory; pad is what was in the one byte that is not
      written. */
  function Params(e: Element, pad: Byte): (r: seq<Byte>) {
    match e
    case Issue(starttime, period, abst) => LongBytes(starttime) + LongBytes(period) + [abst, pad]
    case Count(tag, count, rate) => WordBytes(Unsigned(count)) + WordBytes(Unsigned(rate)) + WordBytes(tag)
    case Get(tag, value) => WordBytes(tag) + WordBytes(value)
    case Actuate(chan, argtype, arg1) => [chan, argtype] + WordBytes(arg1)
    case Reboot => []
    case Logical(result, attr, optype, argtype, arg1) =>
      WordBytes(result) + WordBytes(attr) + [optype, argtype] + WordBytes(arg1)
  }

  function ParamsSize(e: Element): (r: nat)
    ensures forall pad: Byte :: |Params(e, pad)| == r
  {
    match e
    case Issue(_, _, _) => 10
    case Count(_, _, _) => 6
    case Get(_, _) => 4
    case Actuate(_, _, _) => 4
    case Reboot => 0
    case Logical(_, _, _, _, _) => 8
  }

  function Size(e: Element): (r: nat) {
    HEADER + ParamsSize(e)
  }

  /** What a mote makes of an attribute. */
  function Decode(a: Attr): (r: Option<Element>) {
    var v := a.value;
    if a.tag == ELEMENT_ISSUE && |v| == 10 then Some(Issue(LongAt(v, 0), LongAt(v, 4), v[8]))
    else if a.tag == ELEMENT_COUNT && |v| == 6 then
      Some(Count(WordAt(v, 4), Signed(WordAt(v, 0)), Signed(WordAt(v, 2))))
    else if a.tag == ELEMENT_GET && |v| == 4 then Some(Get(WordAt(v, 0), WordAt(v, 2)))
    else if a.tag == ELEMENT_ACTUATE && |v| == 4 then Some(Actuate(v[0], v[1], WordAt(v, 2)))
    else if a.tag == ELEMENT_REBOOT && |v| == 0 then Some(Reboot)
    else if a.tag == ELEMENT_LOGICAL && |v| == 8 then
      Some(Logical(WordAt(v, 0), WordAt(v, 2), v[4], v[5], WordAt(v, 6)))
    else None
  }

  function AttrOf(e: Element, pad: Byte): (r: Attr)
    ensures |r.value| == ParamsSize(e)
  {
    Attr(Code(e), Params(e, pad))
  }

  lemma DecodeParams(e: Element, pad: Byte)
    ensures Decode(AttrOf(e, pad)) == Some(e)
  {
    match e
    case Issue(starttime, period, abst) => IssueParts(starttime, period, [abst, pad]);
    case Count(_, count, rate) => assert Signed(Unsigned(count)) == count && Signed(Unsigned(rate)) == rate;
    case _ =>
  }

  lemma IssueParts(starttime: Long, period: Long, rest: seq<Byte>)
    ensures var v := LongBytes(starttime) + LongBytes(period) + rest;
            LongAt(v, 0) == starttime && LongAt(v, 4) == period
  {
    Assoc(LongBytes(starttime), LongBytes(period), rest);
    LongInFront(starttime, LongBytes(period) + rest);
    LongInFront(period, rest);
    LongBehind(LongBytes(starttime), LongBytes(period) + rest, 0);
  }

  lemma Framed(a: Attr)
    requires a.tag < 0x100 && |a.value| < 0x100
    ensures Encode(a) == [a.tag, 0, |a.value|, 0] + a.value
  {
    assert WordBytes(a.tag) == [a.tag, 0] && WordBytes(|a.value|) == [|a.value|, 0];
  }

  lemma UnsignedIsModulo(x: Short)
    ensures Unsigned(x) == x % 0x1_0000
  {
  }

  /** The bytes on the air, as a mote's element map and its packed structures fix them. */
  lemma WireFormat(e: Element, pad: Byte)
    ensures var bytes := Encode(AttrOf(e, pad));
            match e
            case Reboot => bytes == [2, 0, 0, 0] + []
            case Count(tag, count, rate) =>
              bytes == [3, 0, 6, 0] + (WordBytes(count % 0x1_0000) + WordBytes(rate % 0x1_0000) + WordBytes(tag))
            case Issue(starttime, period, abst) =>
              bytes == [5, 0, 10, 0] + (LongBytes(starttime) + LongBytes(period) + [abst, pad])
            case Get(tag, value) => bytes == [6, 0, 4, 0] + (WordBytes(tag) + WordBytes(value))
            case Actuate(chan, argtype, arg1) => bytes == [7, 0, 4, 0] + ([chan, argtype] + WordBytes(arg1))
            case Logical(result, attr, optype, argtype, arg1) =>
              bytes == [12, 0, 8, 0] + (WordBytes(result) + WordBytes(attr) + [optype, argtype] + WordBytes(arg1))
  {
    Framed(AttrOf(e, pad));
    if e.Count? {
      UnsignedIsModulo(e.count);
      UnsignedIsModulo(e.rate);
    }
  }

  // ---------- writing into the buffer ----------

  function Overwrite(buf: seq<Byte>, at: nat, bytes: seq<Byte>): (r: seq<Byte>)
    requires at + |bytes| <= |buf|
    ensures |r| == |buf|
  {
    buf[..at] + bytes + buf[at + |bytes|..]
  }

  lemma OverwriteParts(buf: seq<Byte>, lo: nat, at: nat, bytes: seq<Byte>)
    requires lo <= at && at + |bytes| <= |buf|
    ensures var r, end := Overwrite(buf, at, bytes), at + |bytes|;
            r[..at] == buf[..at] && r[lo..end] == buf[lo..at] + bytes && r[end..] == buf[end..]
  {
  }

  /** Two writes side by side make one. */
  lemma OverwriteJoins(buf: seq<Byte>, at: nat, a: seq<Byte>, b: seq<Byte>)
    requires at + |a| + |b| <= |buf|
    ensures Overwrite(Overwrite(buf, at, a), at + |a|, b) == Overwrite(buf, at, a + b)
  {
    OverwriteParts(buf, 0, at, a);
  }

  /** The byte that constructing e at len leaves inside its parameters. */
  function PadAt(buf: seq<Byte>, len: nat, e: Element): (r: Byte)
    requires len + Size(e) <= |buf|
  {
    if e.Issue? then buf[len + 13] else 0
  }

  function Written(buf: seq<Byte>, len: nat, e: Element): (r: seq<Byte>)
    requires len + Size(e) <= |buf|
    ensures |r| == |buf|
  {
    Overwrite(buf, len, Encode(AttrOf(e, PadAt(buf, len, e))))
  }

  function TotalSize(es: seq<Element>): (r: nat) {
    if es == [] then 0 else Size(es[0]) + TotalSize(es[1..])
  }

  /** The constructors of es, each at the length so far. */
  function Constructed(buf: seq<Byte>, len: nat, es: seq<Element>): (r: seq<Byte>)
    requires len + TotalSize(es) <= |buf|
    ensures |r| == |buf|
    decreases |es|
  {
    if es == [] then buf else Constructed(Written(buf, len, es[0]), len + Size(es[0]), es[1..])
  }

  function Initialized(buf: seq<Byte>): (r: seq<Byte>)
    requires |buf| >= TASK_HEADER
  {
    buf[0 := TASK_INSTALL]
  }

  /** construct_finalize keeps the low byte of the number of elements. */
  function Finalized(buf: seq<Byte>, n: nat): (r: seq<Byte>)
    requires |buf| >= TASK_HEADER
  {
    buf[1 := n % 0x100]
  }

  // ---------- what a mote reads back ----------

  function DecodeAll(attrs: seq<Attr>): (r: Option<seq<Element>>) {
    if attrs == [] then Some([])
    else
      var before := DecodeAll(attrs[..|attrs| - 1]);
      var last := Decode(attrs[|attrs| - 1]);
      if before.Some? && last.Some? then Some(before.value + [last.value]) else None
  }

  lemma EncodeCons(a: Attr, rest: seq<Attr>)
    requires Encodable(rest) && |a.value| < 0x1_0000
    ensures Encodable([a] + rest) && EncodeAll([a] + rest) == Encode(a) + EncodeAll(rest)
  {
    assert ([a] + rest)[1..] == rest;
  }

  lemma {:induction false} EncodeOneMore(attrs: seq<Attr>, a: Attr)
    requires Encodable(attrs) && |a.value| < 0x1_0000
    ensures Encodable(attrs + [a]) && EncodeAll(attrs + [a]) == EncodeAll(attrs) + Encode(a)
    decreases |attrs|
  {
    if attrs == [] {
      EncodeCons(a, []);
      assert [] + [a] == [a] + [] && Encode(a) + [] == [] + Encode(a);
    } else {
      var first, rest := attrs[0], attrs[1..];
      EncodeOneMore(rest, a);
      EncodeCons(first, rest + [a]);
      assert attrs + [a] == [first] + (rest + [a]);
      Assoc(Encode(first), EncodeAll(rest), Encode(a));
    }
  }

  lemma DecodeOneMore(attrs: seq<Attr>, es: seq<Element>, a: Attr, e: Element)
    requires DecodeAll(attrs) == Some(es) && Decode(a) == Some(e)
    ensures DecodeAll(attrs + [a]) == Some(es + [e])
  {
    assert (attrs + [a])[..|attrs + [a]| - 1] == attrs;
  }

  /** The bytes are those of attrs, and attrs decode to es. */
  predicate HeldBy(attrs: seq<Attr>, bytes: seq<Byte>, es: seq<Element>) {
    Encodable(attrs) && bytes == EncodeAll(attrs) && DecodeAll(attrs) == Some(es)
  }

  /** The bytes of es hold attributes that decode to es. */
  ghost predicate Holds(bytes: seq<Byte>, es: seq<Element>) {
    exists attrs :: HeldBy(attrs, bytes, es)
  }

  lemma HeldByOneMore(attrs: seq<Attr>, bytes: seq<Byte>, es: seq<Element>, a: Attr, e: Element)
    requires HeldBy(attrs, bytes, es) && |a.value| < 0x1_0000 && Decode(a) == Some(e)
    ensures HeldBy(attrs + [a], bytes + Encode(a), es + [e])
  {
    EncodeOneMore(attrs, a);
    DecodeOneMore(attrs, es, a, e);
  }

  lemma HoldsAttr(bytes: seq<Byte>, es: seq<Element>, a: Attr, e: Element)
    requires Holds(bytes, es) && |a.value| < 0x1_0000 && Decode(a) == Some(e)
    ensures Holds(bytes + Encode(a), es + [e])
  {
    var attrs :| HeldBy(attrs, bytes, es);
    HeldByOneMore(attrs, bytes, es, a, e);
  }

  lemma HoldsOneMore(bytes: seq<Byte>, es: seq<Element>, e: Element, pad: Byte)
    requires Holds(bytes, es)
    ensures Holds(bytes + Encode(AttrOf(e, pad)), es + [e])
  {
    DecodeParams(e, pad);
    HoldsAttr(bytes, es, AttrOf(e, pad), e);
  }

  predicate SameFrom(a: seq<Byte>, b: seq<Byte>, n: nat) {
    n <= |a| && n <= |b| && a[n..] == b[n..]
  }

  /** buf is a task of length len over what was there before. */
  ghost predicate IsTask(buf: seq<Byte>, len: nat, es: seq<Element>, before: seq<Byte>) {
    && TASK_HEADER <= len <= |buf| && buf[0] == TASK_INSTALL
    && Holds(buf[TASK_HEADER..len], es) && SameFrom(buf, before, len)
  }

  lemma OneMorePart(buf: seq<Byte>, len: nat, es: seq<Element>, bytes: seq<Byte>, es': seq<Element>, before: seq<Byte>)
    requires IsTask(buf, len, es, before) && len + |bytes| <= |buf| && Holds(buf[TASK_HEADER..len] + bytes, es')
    ensures IsTask(Overwrite(buf, len, bytes), len + |bytes|, es', before)
  {
    var r, end := Overwrite(buf, len, bytes), len + |bytes|;
    OverwriteParts(buf, TASK_HEADER, len, bytes);
    assert r[0] == r[..len][0] == buf[..len][0];
    assert buf[end..] == buf[len..][|bytes|..] && before[end..] == before[len..][|bytes|..];
  }

  lemma OneMoreElement(buf: seq<Byte>, len: nat, es: seq<Element>, e: Element, before: seq<Byte>)
    requires IsTask(buf, len, es, before) && len + Size(e) <= |buf|
    ensures IsTask(Written(buf, len, e), len + Size(e), es + [e], before)
  {
    var pad := PadAt(buf, len, e);
    HoldsOneMore(buf[TASK_HEADER..len], es, e, pad);
    OneMorePart(buf, len, es, Encode(AttrOf(e, pad)), es + [e], before);
  }

  lemma NothingMore(buf: seq<Byte>, len: nat, es: seq<Element>)
    requires len <= |buf|
    ensures Constructed(buf, len, []) == buf && len + TotalSize([]) == len && es + [] == es
  {
  }

  lemma OneMoreStep(buf: seq<Byte>, len: nat, es: seq<Element>, more: seq<Element>)
    requires more != [] && len + TotalSize(more) <= |buf|
    ensures TotalSize(more) == Size(more[0]) + TotalSize(more[1..])
    ensures Constructed(buf, len, more) == Constructed(Written(buf, len, more[0]), len + Size(more[0]), more[1..])
    ensures es + [more[0]] + more[1..] == es + more
  {
  }

  /** The task with the first of more in it, and the rest still to come. */
  lemma NextTask(buf: seq<Byte>, len: nat, es: seq<Element>, more: seq<Element>, before: seq<Byte>)
    returns (buf': seq<Byte>, len': nat, es': seq<Element>)
    requires IsTask(buf, len, es, before) && more != [] && len + TotalSize(more) <= |buf|
    ensures IsTask(buf', len', es', before) && |buf'| == |buf|
    ensures len' + TotalSize(more[1..]) == len + TotalSize(more) && es' + more[1..] == es + more
    ensures Constructed(buf', len', more[1..]) == Constructed(buf, len, more)
  {
    OneMoreStep(buf, len, es, more);
    OneMoreElement(buf, len, es, more[0], before);
    buf', len', es' := Written(buf, len, more[0]), len + Size(more[0]), es + [more[0]];
  }

  /** Constructing more behind the task of es makes r, the task of all, of length end. */
  lemma {:induction false} MoreElements(buf: seq<Byte>, len: nat, es: seq<Element>, more: seq<Element>,
                                        before: seq<Byte>, r: seq<Byte>, end: nat, all: seq<Element>)
    requires IsTask(buf, len, es, before) && len + TotalSize(more) <= |buf|
    requires r == Constructed(buf, len, more) && end == len + TotalSize(more) && all == es + more
    ensures IsTask(r, end, all, before)
    decreases |more|
  {
    if more == [] {
      NothingMore(buf, len, es);
    } else {
      var buf', len', es' := NextTask(buf, len, es, more, before);
      MoreElements(buf', len', es', more[1..], before, r, end, all);
    }
  }

  lemma EmptyTask(buf: seq<Byte>)
    requires |buf| >= TASK_HEADER
    ensures IsTask(Initialized(buf), TASK_HEADER, [], buf)
  {
    NothingHeld(Initialized(buf)[2..2]);
    assert Initialized(buf)[2..] == buf[2..];
  }

  lemma NothingHeld(bytes: seq<Byte>)
    requires bytes == []
    ensures Holds(bytes, [])
  {
    assert HeldBy([], bytes, []);
  }

  predicate ReadsAs(bytes: seq<Byte>, es: seq<Element>) {
    Parse(bytes).Some? && DecodeAll(Parse(bytes).value) == Some(es)
  }

  lemma HeldIsRead(bytes: seq<Byte>, es: seq<Element>)
    requires Holds(bytes, es)
    ensures ReadsAs(bytes, es)
  {
    var attrs :| HeldBy(attrs, bytes, es);
    ParseEncoded(attrs);
  }

  /** Each constructor leaves the bytes before it alone. */
  lemma WrittenKeepsPrefix(buf: seq<Byte>, len: nat, e: Element)
    requires len + Size(e) <= |buf|
    ensures Written(buf, len, e)[..len] == buf[..len]
  {
  }

  lemma FinalParts(b: seq<Byte>, n: nat, len: nat)
    requires TASK_HEADER <= len <= |b|
    ensures var r := Finalized(b, n);
            && r[0] == b[0] && r[1] == n % 0x100
            && r[TASK_HEADER..len] == b[TASK_HEADER..len] && r[len..] == b[len..]
  {
  }

  /** A mote that walks the task finds exactly es, in order, and what was behind the task is
      still there.  The number of elements is right when there are fewer than 256. */
  predicate IsFinished(r: seq<Byte>, len: nat, es: seq<Element>, before: seq<Byte>) {
    && TASK_HEADER <= len <= |r| && r[0] == TASK_INSTALL && (r[1] == |es| <==> |es| < 0x100)
    && ReadsAs(r[TASK_HEADER..len], es) && SameFrom(r, before, len)
  }

  lemma FinalReads(b: seq<Byte>, len: nat, es: seq<Element>, before: seq<Byte>, r: seq<Byte>)
    requires IsTask(b, len, es, before) && r == Finalized(b, |es|)
    ensures IsFinished(r, len, es, before)
  {
    FinalParts(b, |es|, len);
    HeldIsRead(b[TASK_HEADER..len], es);
    LowByte(|es|);
  }

  lemma LowByte(n: nat)
    ensures n % 0x100 == n <==> n < 0x100
  {
  }

  /** construct_init, the constructors of es, construct_finalize. */
  function Task(buf: seq<Byte>, es: seq<Element>): (r: seq<Byte>)
    requires TASK_HEADER + TotalSize(es) <= |buf|
  {
    Finalized(Constructed(Initialized(buf), TASK_HEADER, es), |es|)
  }

  lemma NothingBefore(es: seq<Element>)
    ensures [] + es == es
  {
  }

  lemma ConstructedIsTask(buf: seq<Byte>, es: seq<Element>, r: seq<Byte>, end: nat)
    requires TASK_HEADER + TotalSize(es) <= |buf|
    requires r == Constructed(Initialized(buf), TASK_HEADER, es) && end == TASK_HEADER + TotalSize(es)
    ensures IsTask(r, end, es, buf)
  {
    EmptyTask(buf);
    NothingBefore(es);
    MoreElements(Initialized(buf), TASK_HEADER, [], es, buf, r, end, es);
  }

  lemma TaskReadsBack(buf: seq<Byte>, es: seq<Element>)
    requires TASK_HEADER + TotalSize(es) <= |buf|
    ensures IsFinished(Task(buf, es), TASK_HEADER + TotalSize(es), es, buf)
  {
    var r := Constructed(Initialized(buf), TASK_HEADER, es);
    ConstructedIsTask(buf, es, r, TASK_HEADER + TotalSize(es));
    FinalReads(r, TASK_HEADER + TotalSize(es), es, buf, Task(buf, es));
  }

  // ---------- the constructors ----------

  /** Write behind what has been written from start on. */
  method PutByte(buf: array<Byte>, b: Byte, ghost was: seq<Byte>, ghost start: nat, ghost done: seq<Byte>, at: nat)
    requires at == start + |done| < buf.Length == |was| && buf[..] == Overwrite(was, start, done)
    modifies buf
    ensures buf[..] == Overwrite(was, start, done + [b])
  {
    buf[at] := b;
    OverwriteJoins(was, start, done, [b]);
  }

  method PutWord(buf: array<Byte>, w: Word, ghost was: seq<Byte>, ghost start: nat, ghost done: seq<Byte>, at: nat)
    requires at == start + |done| && at + 2 <= buf.Length == |was| && buf[..] == Overwrite(was, start, done)
    modifies buf
    ensures buf[..] == Overwrite(was, start, done + WordBytes(w))
  {
    buf[at], buf[at + 1] := w % 0x100, w / 0x100;
    OverwriteJoins(was, start, done, WordBytes(w));
  }

  method PutLong(buf: array<Byte>, x: Long, ghost was: seq<Byte>, ghost start: nat, ghost done: seq<Byte>, at: nat)
    requires at == start + |done| && at + 4 <= buf.Length == |was| && buf[..] == Overwrite(was, start, done)
    modifies buf
    ensures buf[..] == Overwrite(was, start, done + LongBytes(x))
  {
    PutWord(buf, x % 0x1_0000, was, start, done, at);
    PutWord(buf, x / 0x1_0000, was, start, done + WordBytes(x % 0x1_0000), at + 2);
    assert done + LongBytes(x) == done + WordBytes(x % 0x1_0000) + WordBytes(x / 0x1_0000);
  }

  function Header(code: Word, size: Word): (r: seq<Byte>)
    ensures |r| == HEADER
  {
    WordBytes(code) + WordBytes(size)
  }

  method PutHeader(buf: array<Byte>, len: nat, code: Word, size: Word)
    requires len + HEADER <= buf.Length
    modifies buf
    ensures buf[..] == Overwrite(old(buf[..]), len, Header(code, size))
  {
    ghost var was := buf[..];
    assert was == Overwrite(was, len, []);
    PutWord(buf, code, was, len, [], len);
    assert [] + WordBytes(code) == WordBytes(code);
    PutWord(buf, size, was, len, WordBytes(code), len + 2);
  }

  method ConstructInit(buf: array<Byte>) returns (len: nat)
    requires buf.Length >= TASK_HEADER
    modifies buf
    ensures len == TASK_HEADER && buf[..] == Initialized(old(buf[..]))
  {
    buf[0] := TASK_INSTALL;
    len := TASK_HEADER;
  }

  method ConstructFinalize(buf: array<Byte>, numElements: nat) returns (len: nat)
    requires buf.Length >= TASK_HEADER
    modifies buf
    ensures len == 0 && buf[..] == Finalized(old(buf[..]), numElements)
  {
    buf[1] := numElements % 0x100;
    len := 0;
  }

  method ConstructIssue(buf: array<Byte>, len: nat, numElements: nat, starttime: Long, period: Long, abst: Byte)
    returns (size: nat, elements: nat)
    requires len + 14 <= buf.Length
    modifies buf
    ensures elements == numElements + 1
    ensures var e := Issue(starttime, period, abst);
            size == Size(e) && buf[..] == Written(old(buf[..]), len, e)
  {
    ghost var was, pad := buf[..], buf[len + 13];
    ghost var h, a, b := Header(ELEMENT_ISSUE, 10), LongBytes(starttime), LongBytes(period);
    PutHeader(buf, len, ELEMENT_ISSUE, 10);
    PutLong(buf, starttime, was, len, h, len + 4);
    PutLong(buf, period, was, len, h + a, len + 8);
    PutByte(buf, abst, was, len, h + a + b, len + 12);
    PadStays(was, len, h + a + b + [abst]);
    assert h + a + b + [abst] + [pad] == Encode(AttrOf(Issue(starttime, period, abst), pad));
    size, elements := 14, numElements + 1;
  }

  /** Leaving a byte alone is writing what is there. */
  lemma PadStays(was: seq<Byte>, len: nat, done: seq<Byte>)
    requires len + |done| < |was|
    ensures Overwrite(was, len, done) == Overwrite(was, len, done + [was[len + |done|]])
  {
  }

  method ConstructCount(buf: array<Byte>, len: nat, numElements: nat, tag: Word, count: Short, rate: Short)
    returns (size: nat, elements: nat)
    requires len + 10 <= buf.Length
    modifies buf
    ensures elements == numElements + 1
    ensures var e := Count(tag, count, rate);
            size == Size(e) && buf[..] == Written(old(buf[..]), len, e)
  {
    ghost var was, h, a, b := buf[..], Header(ELEMENT_COUNT, 6), WordBytes(Unsigned(count)), WordBytes(Unsigned(rate));
    PutHeader(buf, len, ELEMENT_COUNT, 6);
    PutWord(buf, Unsigned(count), was, len, h, len + 4);
    PutWord(buf, Unsigned(rate), was, len, h + a, len + 6);
    PutWord(buf, tag, was, len, h + a + b, len + 8);
    assert h + a + b + WordBytes(tag) == Encode(AttrOf(Count(tag, count, rate), 0));
    size, elements := 10, numElements + 1;
  }

  method ConstructGet(buf: array<Byte>, len: nat, numElements: nat, tag: Word, value: Word)
    returns (size: nat, elements: nat)
    requires len + 8 <= buf.Length
    modifies buf
    ensures elements == numElements + 1
    ensures var e := Get(tag, value);
            size == Size(e) && buf[..] == Written(old(buf[..]), len, e)
  {
    ghost var was, h := buf[..], Header(ELEMENT_GET, 4);
    PutHeader(buf, len, ELEMENT_GET, 4);
    PutWord(buf, tag, was, len, h, len + 4);
    PutWord(buf, value, was, len, h + WordBytes(tag), len + 6);
    assert h + WordBytes(tag) + WordBytes(value) == Encode(AttrOf(Get(tag, value), 0));
    size, elements := 8, numElements + 1;
  }

  method ConstructActuate(buf: array<Byte>, len: nat, numElements: nat, chan: Byte, argtype: Byte, arg1: Word)
    returns (size: nat, elements: nat)
    requires len + 8 <= buf.Length
    modifies buf
    ensures elements == numElements + 1
    ensures var e := Actuate(chan, argtype, arg1);
            size == Size(e) && buf[..] == Written(old(buf[..]), len, e)
  {
    ghost var was, h := buf[..], Header(ELEMENT_ACTUATE, 4);
    PutHeader(buf, len, ELEMENT_ACTUATE, 4);
    PutByte(buf, chan, was, len, h, len + 4);
    PutByte(buf, argtype, was, len, h + [chan], len + 5);
    PutWord(buf, arg1, was, len, h + [chan] + [argtype], len + 6);
    assert h + [chan] + [argtype] + WordBytes(arg1) == Encode(AttrOf(Actuate(chan, argtype, arg1), 0));
    size, elements := 8, numElements + 1;
  }

  lemma RebootBytes()
    ensures Encode(AttrOf(Reboot, 0)) == Header(ELEMENT_REBOOT, 0)
  {
    assert Header(ELEMENT_REBOOT, 0) + [] == Header(ELEMENT_REBOOT, 0);
  }

  method ConstructReboot(buf: array<Byte>, len: nat, numElements: nat) returns (size: nat, elements: nat)
    requires len + 4 <= buf.Length
    modifies buf
    ensures elements == numElements + 1
    ensures size == Size(Reboot) && buf[..] == Written(old(buf[..]), len, Reboot)
  {
    PutHeader(buf, len, ELEMENT_REBOOT, 0);
    RebootBytes();
    size, elements := 4, numElements + 1;
  }

  method ConstructLogical(buf: array<Byte>, len: nat, numElements: nat,
                          result: Word, attr: Word, optype: Byte, argtype: Byte, arg1: Word)
    returns (size: nat, elements: nat)
    requires len + 12 <= buf.Length
    modifies buf
    ensures elements == numElements + 1
    ensures var e := Logical(result, attr, optype, argtype, arg1);
            size == Size(e) && buf[..] == Written(old(buf[..]), len, e)
  {
    ghost var was, h, a, b := buf[..], Header(ELEMENT_LOGICAL, 8), WordBytes(result), WordBytes(attr);
    PutHeader(buf, len, ELEMENT_LOGICAL, 8);
    PutWord(buf, result, was, len, h, len + 4);
    PutWord(buf, attr, was, len, h + a, len + 6);
    PutByte(buf, optype, was, len, h + a + b, len + 8);
    PutByte(buf, argtype, was, len, h + a + b + [optype], len + 9);
    PutWord(buf, arg1, was, len, h + a + b + [optype] + [argtype], len + 10);
    assert h + a + b + [optype] + [argtype] + WordBytes(arg1)
        == Encode(AttrOf(Logical(result, attr, optype, argtype, arg1), 0));
    size, elements := 12, numElements + 1;
  }
}
