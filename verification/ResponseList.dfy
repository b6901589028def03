/** The linked list behind a response, and reading one from a packet. */
module ResponseList {

  import opened Common
  import opened LittleEndian
  import opened Response
  import opened Tlv

  class AttrNode {
    const tag: int
    const words: seq<Word>
    var next: AttrNode?

    constructor (tag: int, words: seq<Word>)
      ensures this.tag == tag && this.words == words && next == null
    {
      this.tag, this.words, next := tag, words, null;
    }
  }

  ghost function ItemsIn(nodes: seq<AttrNode>): (r: seq<Item>)
    ensures |r| == |nodes|
    ensures forall i :: 0 <= i < |r| ==> r[i] == Item(nodes[i].tag, nodes[i].words)
  {
    seq(|nodes|, i requires 0 <= i < |nodes| => Item(nodes[i].tag, nodes[i].words))
  }

  lemma ItemsInserted(nodes: seq<AttrNode>, p: nat, node: AttrNode)
    requires p <= |nodes| && p == Place(ItemsIn(nodes), node.tag)
    ensures ItemsIn(nodes[..p] + [node] + nodes[p..]) == Insert(ItemsIn(nodes), Item(node.tag, node.words))
  {
  }

  lemma ItemsRemoved(nodes: seq<AttrNode>, i: nat)
    requires i < |nodes|
    ensures ItemsIn(nodes[..i] + nodes[i + 1..]) == Without(ItemsIn(nodes), i)
  {
  }

  /** The node at i; null at the end. */
  function NodeAt(nodes: seq<AttrNode>, i: nat): (r: AttrNode?) {
    if i < |nodes| then nodes[i] else null
  }

  ghost predicate Follows(nodes: seq<AttrNode>, i: nat)
    requires i < |nodes|
    reads nodes
  {
    nodes[i].next == NodeAt(nodes, i + 1)
  }

  ghost predicate Distinct(nodes: seq<AttrNode>) {
    forall i, j :: 0 <= i < j < |nodes| ==> nodes[i] != nodes[j]
  }

  lemma DistinctWith(nodes: seq<AttrNode>, p: nat, node: AttrNode)
    requires Distinct(nodes) && p <= |nodes| && node !in nodes
    ensures Distinct(nodes[..p] + [node] + nodes[p..])
  {
  }

  /** The nodes are linked in order, each once. */
  ghost predicate Linked(nodes: seq<AttrNode>)
    reads nodes
  {
    && Distinct(nodes)
    && (forall i {:trigger Follows(nodes, i)} :: 0 <= i < |nodes| ==> Follows(nodes, i))
  }

  class ResponseList {
    var head: AttrNode?
    var length: nat
    const tid: int
    const moteAddr: int
    ghost var nodes: seq<AttrNode>

    ghost predicate Valid()
      reads this, nodes
    {
      head == NodeAt(nodes, 0) && Linked(nodes) && length == |nodes|
    }

    ghost function Nodes(): set<AttrNode>
      reads this
    {
      set n | n in nodes
    }

    ghost function Items(): seq<Item>
      reads this
    {
      ItemsIn(nodes)
    }

    constructor (tid: int, moteAddr: int)
      ensures Valid() && nodes == [] && Items() == [] && this.tid == tid && this.moteAddr == moteAddr
    {
      head, length, nodes := null, 0, [];
      this.tid, this.moteAddr := tid, moteAddr;
    }

    method Find(tag: int) returns (node: AttrNode?)
      requires Valid()
      ensures node == NodeAt(nodes, IndexOf(Items(), tag))
    {
      ghost var i := 0;
      node := head;
      while node != null
        invariant i <= |nodes| && node == NodeAt(nodes, i)
        invariant forall j :: 0 <= j < i ==> nodes[j].tag != tag
        decreases |nodes| - i
      {
        if node.tag == tag { return; }
        assert Follows(nodes, i);
        node := node.next;
        i := i + 1;
      }
    }

    /** The node after which the tag belongs; null if it goes to the front. */
    method FindPlace(tag: int) returns (prev: AttrNode?, ghost p: nat)
      requires Valid()
      ensures p == Place(Items(), tag) && prev == if p == 0 then null else nodes[p - 1]
    {
      p := 0;
      if head == null || tag < head.tag { return null, 0; }
      prev := head;
      p := 1;
      assert Follows(nodes, 0);
      while prev.next != null && prev.next.tag <= tag
        invariant 1 <= p <= |nodes| && prev == nodes[p - 1] && prev.next == NodeAt(nodes, p)
        invariant forall j :: 0 <= j < p ==> nodes[j].tag <= tag
        decreases |nodes| - p
      {
        prev := prev.next;
        p := p + 1;
        assert Follows(nodes, p - 1);
      }
    }

    method LinkAfter(prev: AttrNode?, node: AttrNode, ghost p: nat)
      requires Valid() && p <= |nodes| && node !in nodes && prev == if p == 0 then null else nodes[p - 1]
      modifies this, Nodes(), node
      ensures Valid() && nodes == old(nodes)[..p] + [node] + old(nodes)[p..]
    {
      ghost var was := nodes;
      DistinctWith(was, p, node);
      assert p > 0 ==> Follows(was, p - 1);
      if prev == null {
        node.next := head;
        head := node;
      } else {
        node.next := prev.next;
        prev.next := node;
      }
      nodes := nodes[..p] + [node] + nodes[p..];
      length := length + 1;
      forall i: int | 0 <= i < |nodes| ensures Follows(nodes, i) {
        if i + 1 < p { assert old(Follows(was, i)); }
        if i > p { assert old(Follows(was, i - 1)); }
      }
    }

    /** Put a node of its own for the value in its place. */
    method InsertAttr(tag: int, words: seq<Word>)
      requires Valid()
      modifies this, Nodes()
      ensures Valid() && Items() == Insert(old(Items()), Item(tag, words))
      ensures fresh(Nodes() - old(Nodes()))
    {
      var node := new AttrNode(tag, words);
      ghost var p;
      var prev;
      prev, p := FindPlace(tag);
      ItemsInserted(nodes, p, node);
      LinkAfter(prev, node, p);
    }

    /** The first node with the tag and the node before it. */
    method FindBefore(tag: int) returns (prev: AttrNode?, node: AttrNode?, ghost i: nat)
      requires Valid()
      ensures i == IndexOf(Items(), tag) && node == NodeAt(nodes, i) && prev == if i == 0 then null else nodes[i - 1]
    {
      i := 0;
      prev, node := null, head;
      while node != null && node.tag != tag
        invariant i <= |nodes| && node == NodeAt(nodes, i) && prev == if i == 0 then null else nodes[i - 1]
        invariant forall j :: 0 <= j < i ==> nodes[j].tag != tag
        decreases |nodes| - i
      {
        assert Follows(nodes, i);
        prev := node;
        node := node.next;
        i := i + 1;
      }
    }

    method UnlinkAfter(prev: AttrNode?, node: AttrNode, ghost i: nat)
      requires Valid() && i < |nodes| && node == nodes[i] && prev == if i == 0 then null else nodes[i - 1]
      modifies this, Nodes()
      ensures Valid() && nodes == old(nodes)[..i] + old(nodes)[i + 1..]
    {
      ghost var was := nodes;
      assert Follows(was, i);
      if prev != null { prev.next := node.next; }
      if node == head { head := node.next; }
      nodes := nodes[..i] + nodes[i + 1..];
      length := length - 1;
      forall j: int | 0 <= j < |nodes| ensures Follows(nodes, j) {
        if j + 1 < i { assert old(Follows(was, j)); }
        if j >= i { assert old(Follows(was, j + 1)); }
      }
    }

    /** Unlink the first node with the tag. */
    method Remove(tag: int) returns (removed: bool)
      requires Valid()
      modifies this, Nodes()
      ensures Valid() && removed == (IndexOf(old(Items()), tag) < |old(Items())|)
      ensures Items() == if removed then Without(old(Items()), IndexOf(old(Items()), tag)) else old(Items())
      ensures Nodes() <= old(Nodes())
    {
      ghost var i;
      var prev, node;
      prev, node, i := FindBefore(tag);
      if node == null { return false; }
      ItemsRemoved(nodes, i);
      UnlinkAfter(prev, node, i);
      return true;
    }

    /** Take the front node off and give its tag. */
    method Pop() returns (tag: Option<int>)
      requires Valid()
      modifies this, Nodes()
      ensures Valid()
      ensures tag == if old(Items()) == [] then None else Some(old(Items())[0].tag)
      ensures Items() == if old(Items()) == [] then [] else old(Items())[1..]
      ensures Nodes() <= old(Nodes())
    {
      if head == null { return None; }
      tag := Some(head.tag);
      var removed := Remove(head.tag);
    }

    method Delete()
      requires Valid()
      modifies this, Nodes()
      ensures Valid() && Items() == []
    {
      var tag := Some(0);
      while tag.Some?
        invariant Valid() && Nodes() <= old(Nodes())
        invariant tag.None? ==> Items() == []
        decreases |nodes|, tag.Some?
      {
        tag := Pop();
      }
    }
  }

  /** The value of an attribute, word by word. */
  method ReadWords(packet: array<Byte>, at: nat, length: nat) returns (words: array<Word>, n: nat)
    requires at + length <= packet.Length
    ensures fresh(words) && n == words.Length == (length + 1) / 2
    ensures words[..] == Words(packet[at..at + length])
  {
    words := new Word[length / 2 + length % 2](_ => 0);
    n := 0;
    ghost var value := packet[at..at + length];
    for i := 0 to length / 2 + length % 2
      invariant n == i
      invariant forall k :: 0 <= k < i ==> words[k] == Words(value)[k]
    {
      WordsAt(value, i);
      var data := if 2 * i == length - 1 then packet[at + 2 * i]
                  else ToWord(packet[at + 2 * i], packet[at + 2 * i + 1]);
      words[n] := data;
      n := n + 1;
    }
  }

  lemma SliceOfRest(s: seq<Byte>, l: nat, offset: nat, a: nat, b: nat)
    requires offset <= l <= |s| && a <= b <= l - offset
    ensures s[..l][offset..][a..b] == s[offset + a..offset + b]
  {
    var t := s[..l][offset..];
    assert t == s[offset..l];
    forall k | 0 <= k < b - a ensures t[a..b][k] == s[offset + a..offset + b][k] {
    }
  }

  /** The attribute at offset, with the number of bytes it takes up. */
  method ReadAttr(packet: array<Byte>, offset: nat, l: nat, ghost a: Attr)
    returns (tag: Word, words: seq<Word>, size: nat)
    requires offset <= l <= packet.Length && First(packet[..l][offset..]) == Some(a)
    ensures Item(tag, words) == ItemOf(a) && size == HEADER + |a.value|
  {
    ghost var rest := packet[..l][offset..];
    tag := ToWord(packet[offset], packet[offset + 1]);
    var length := ToWord(packet[offset + 2], packet[offset + 3]);
    var datavector, n := ReadWords(packet, offset + HEADER, length);
    SliceOfRest(packet[..], l, offset, HEADER, HEADER + length);
    assert packet[..][..l] == packet[..l];
    assert packet[..][offset + HEADER..offset + HEADER + length] == packet[offset + HEADER..offset + HEADER + length];
    assert datavector[..n] == datavector[..];
    words := datavector[..n];
    size := HEADER + length;
  }

  lemma {:induction false} InsertOneMore(list: seq<Item>, xs: seq<Item>, x: Item)
    ensures InsertAll(list, xs + [x]) == Insert(InsertAll(list, xs), x)
    decreases |xs|
  {
    if xs == [] {
      assert xs + [x] == [x];
    } else {
      InsertOneMore(Insert(list, xs[0]), xs[1..], x);
      assert (xs + [x])[1..] == xs[1..] + [x];
    }
  }

  lemma {:induction false} ItemsOneMore(attrs: seq<Attr>, a: Attr)
    ensures ItemsOf(attrs + [a]) == ItemsOf(attrs) + [ItemOf(a)]
  {
    if attrs != [] {
      ItemsOneMore(attrs[1..], a);
      assert (attrs + [a])[1..] == attrs[1..] + [a];
    }
  }

  lemma SortedOneMore(attrs: seq<Attr>, a: Attr)
    ensures SortedItems(attrs + [a]) == Insert(SortedItems(attrs), ItemOf(a))
  {
    ItemsOneMore(attrs, a);
    InsertOneMore([], ItemsOf(attrs), ItemOf(a));
  }

  function SortedItems(attrs: seq<Attr>): (r: seq<Item>) {
    InsertAll([], ItemsOf(attrs))
  }

  /** The bytes before offset are the attributes done. */
  ghost predicate Reached(s: seq<Byte>, offset: nat, done: seq<Attr>) {
    && offset <= |s| && Parse(s).Some? && Parse(s[offset..]).Some?
    && Parse(s).value == done + Parse(s[offset..]).value
  }

  /** The items are what the bytes before offset give. */
  ghost predicate ReadTo(s: seq<Byte>, offset: nat, items: seq<Item>) {
    exists done :: Reached(s, offset, done) && items == SortedItems(done)
  }

  lemma ReadToStart(s: seq<Byte>)
    requires Parse(s).Some?
    ensures ReadTo(s, 0, [])
  {
    assert s[0..] == s && [] + Parse(s).value == Parse(s).value;
    assert Reached(s, 0, []) && SortedItems([]) == [];
  }

  lemma ReachedNext(s: seq<Byte>, offset: nat, done: seq<Attr>) returns (a: Attr)
    requires Reached(s, offset, done) && offset < |s|
    ensures First(s[offset..]) == Some(a) && Reached(s, offset + HEADER + |a.value|, done + [a])
  {
    a := First(s[offset..]).value;
    var next := s[offset..][HEADER + |a.value|..];
    assert next == s[offset + HEADER + |a.value|..];
    Assoc(done, [a], Parse(next).value);
  }

  lemma ReadToNext(s: seq<Byte>, offset: nat, items: seq<Item>) returns (a: Attr)
    requires ReadTo(s, offset, items) && offset < |s|
    ensures First(s[offset..]) == Some(a) && offset + HEADER + |a.value| <= |s|
    ensures ReadTo(s, offset + HEADER + |a.value|, Insert(items, ItemOf(a)))
  {
    var done :| Reached(s, offset, done) && items == SortedItems(done);
    a := ReachedNext(s, offset, done);
    SortedOneMore(done, a);
  }

  lemma ReadToEnd(s: seq<Byte>, items: seq<Item>)
    requires ReadTo(s, |s|, items)
    ensures Parse(s).Some? && items == SortedItems(Parse(s).value)
  {
    var done :| Reached(s, |s|, done) && items == SortedItems(done);
    assert s[|s|..] == [] && done + [] == done;
  }

  /** Put the attribute at offset in the list. */
  method ReadInto(list: ResponseList, packet: array<Byte>, offset: nat, l: nat, ghost a: Attr) returns (size: nat)
    requires list.Valid() && offset <= l <= packet.Length && First(packet[..l][offset..]) == Some(a)
    modifies list, list.Nodes()
    ensures list.Valid() && fresh(list.Nodes() - old(list.Nodes()))
    ensures size == HEADER + |a.value| && list.Items() == Insert(old(list.Items()), ItemOf(a))
  {
    var tag, words;
    tag, words, size := ReadAttr(packet, offset, l, a);
    list.InsertAttr(tag, words);
  }

  method ReadNext(list: ResponseList, packet: array<Byte>, offset: nat, l: nat, ghost s: seq<Byte>)
    returns (size: nat)
    requires list.Valid() && offset < l <= packet.Length && s == packet[..l] && ReadTo(s, offset, list.Items())
    modifies list, list.Nodes()
    ensures list.Valid() && fresh(list.Nodes() - old(list.Nodes()))
    ensures size > 0 && offset + size <= l && ReadTo(s, offset + size, list.Items())
  {
    ghost var a := ReadToNext(s, offset, list.Items());
    size := ReadInto(list, packet, offset, l, a);
  }

  /** Put every attribute of the first l bytes in the list. */
  method ReadAttrs(list: ResponseList, packet: array<Byte>, l: nat, ghost s: seq<Byte>)
    requires list.Valid() && list.Items() == [] && l <= packet.Length && s == packet[..l] && Parse(s).Some?
    modifies list, list.Nodes()
    ensures list.Valid() && fresh(list.Nodes() - old(list.Nodes()))
    ensures list.Items() == SortedItems(Parse(s).value)
  {
    var offset := 0;
    ReadToStart(s);
    while offset < l
      invariant list.Valid() && fresh(list.Nodes() - old(list.Nodes()))
      invariant offset <= l && s == packet[..l] && ReadTo(s, offset, list.Items())
      decreases l - offset
    {
      var size := ReadNext(list, packet, offset, l, s);
      offset := offset + size;
    }
    ReadToEnd(s, list.Items());
  }

  /** Read a packet of l bytes.  A packet that begins with the error attribute gives no
      list; any other gives its attributes, sorted. */
  method ReadResponse(packet: array<Byte>, l: nat, tid: int, addr: int) returns (list: ResponseList?)
    requires 2 <= packet.Length && l <= packet.Length && Parse(packet[..l]).Some?
    ensures list == null <==> ToWord(packet[0], packet[1]) == ERROR_ATTRIBUTE
    ensures list != null ==>
              && fresh(list) && fresh(list.Nodes()) && list.Valid() && list.tid == tid && list.moteAddr == addr
              && list.Items() == SortedItems(Parse(packet[..l]).value)
              && Represents(list.Items(), Parse(packet[..l]).value)
  {
    if ToWord(packet[0], packet[1]) == ERROR_ATTRIBUTE { return null; }
    list := new ResponseList(tid, addr);
    ReadAttrs(list, packet, l, packet[..l]);
    InsertedRepresent(Parse(packet[..l]).value);
  }

  /** What a packet written from attributes becomes: a list that represents them, in which
      Find gives the earliest attribute of a tag. */
  lemma ResponseIsSortedPacket(attrs: seq<Attr>, tag: int)
    requires Encodable(attrs)
    ensures Parse(EncodeAll(attrs)) == Some(attrs)
    ensures var (items, those) := (SortedItems(attrs), AttrsOf(attrs, tag));
            && Represents(items, attrs)
            && (if those == [] then IndexOf(items, tag) == |items|
                else IndexOf(items, tag) < |items| && StandsFor(items[IndexOf(items, tag)], those[0]))
  {
    ParseEncoded(attrs);
    InsertedRepresent(attrs);
    assert AllStandFor(OfTag(SortedItems(attrs), tag), AttrsOf(attrs, tag));
    FoundIsFirst(SortedItems(attrs), tag);
  }
}
