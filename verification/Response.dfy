/** A mote's response: the attributes of a packet in a linked list sorted by tag. */
module Response {

  import opened Common
  import opened LittleEndian
  import opened Tlv

  const ERROR_ATTRIBUTE: Word := 1

  /** An attribute as the list holds it, its value split into 16-bit words. */
  datatype Item = Item(tag: int, words: seq<Word>)

  /** An odd last byte makes a word of its own. */
  function Words(value: seq<Byte>): (r: seq<Word>)
    ensures |r| == (|value| + 1) / 2
  {
    if value == [] then []
    else if |value| == 1 then [value[0]]
    else [WordAt(value, 0)] + Words(value[2..])
  }

  lemma {:induction false} WordsAt(value: seq<Byte>, k: nat)
    requires 2 * k < |value|
    ensures Words(value)[k] == if 2 * k + 1 < |value| then ToWord(value[2 * k], value[2 * k + 1]) else value[2 * k]
  {
    if k > 0 {
      WordsAt(value[2..], k - 1);
    }
  }

  /** The bytes come back from the words, given how many there were. */
  lemma {:induction false} WordsLoseNothing(v: seq<Byte>, w: seq<Byte>)
    requires |v| == |w| && Words(v) == Words(w)
    ensures v == w
    decreases |v|
  {
    if |v| >= 2 {
      assert Words(v)[0] == Words(w)[0] && Words(v)[1..] == Words(w)[1..];
      WordsLoseNothing(v[2..], w[2..]);
      assert v == [v[0], v[1]] + v[2..] && w == [w[0], w[1]] + w[2..];
    } else if |v| == 1 {
      assert Words(v)[0] == v[0] && Words(w)[0] == w[0];
    }
  }

  function ItemOf(a: Attr): (r: Item) {
    Item(a.tag, Words(a.value))
  }

  function ItemsOf(attrs: seq<Attr>): (r: seq<Item>)
    ensures |r| == |attrs|
  {
    if attrs == [] then [] else [ItemOf(attrs[0])] + ItemsOf(attrs[1..])
  }

  // ---------- sorting by insertion ----------

  /** The place of the first item with a greater tag. */
  function Place(list: seq<Item>, tag: int): (r: nat)
    ensures r <= |list|
    ensures forall i :: 0 <= i < r ==> list[i].tag <= tag
    ensures r < |list| ==> tag < list[r].tag
  {
    if list == [] || tag < list[0].tag then 0 else 1 + Place(list[1..], tag)
  }

  function Insert(list: seq<Item>, x: Item): (r: seq<Item>) {
    var p := Place(list, x.tag);
    list[..p] + [x] + list[p..]
  }

  function InsertAll(list: seq<Item>, xs: seq<Item>): (r: seq<Item>)
    decreases |xs|
  {
    if xs == [] then list else InsertAll(Insert(list, xs[0]), xs[1..])
  }

  predicate Sorted(list: seq<Item>) {
    forall i, j :: 0 <= i < j < |list| ==> list[i].tag <= list[j].tag
  }

  function IfTag(x: Item, tag: int): (r: seq<Item>) {
    if x.tag == tag then [x] else []
  }

  /** The items with a tag, in order. */
  function OfTag(list: seq<Item>, tag: int): (r: seq<Item>) {
    if list == [] then [] else IfTag(list[0], tag) + OfTag(list[1..], tag)
  }

  lemma OfTagCons(x: Item, rest: seq<Item>, tag: int)
    ensures OfTag([x] + rest, tag) == IfTag(x, tag) + OfTag(rest, tag)
  {
    assert ([x] + rest)[1..] == rest;
  }

  lemma {:induction false} OfTagJoins(a: seq<Item>, b: seq<Item>, tag: int)
    ensures OfTag(a + b, tag) == OfTag(a, tag) + OfTag(b, tag)
    decreases |a|
  {
    if a == [] {
      assert a + b == b;
    } else {
      OfTagJoins(a[1..], b, tag);
      assert [a[0]] + a[1..] == a;
      Assoc([a[0]], a[1..], b);
      OfTagCons(a[0], a[1..] + b, tag);
      Assoc(IfTag(a[0], tag), OfTag(a[1..], tag), OfTag(b, tag));
    }
  }

  lemma {:induction false} NoneOfTag(list: seq<Item>, tag: int)
    requires forall i :: 0 <= i < |list| ==> list[i].tag != tag
    ensures OfTag(list, tag) == []
  {
    if list != [] {
      NoneOfTag(list[1..], tag);
    }
  }

  lemma InsertKeepsSorted(list: seq<Item>, x: Item)
    requires Sorted(list)
    ensures Sorted(Insert(list, x))
  {
  }

  lemma OfTagSplit(a: seq<Item>, x: Item, b: seq<Item>, tag: int)
    ensures OfTag(a + [x] + b, tag) == OfTag(a, tag) + IfTag(x, tag) + OfTag(b, tag)
  {
    OfTagJoins(a + [x], b, tag);
    OfTagJoins(a, [x], tag);
    assert OfTag([x], tag) == IfTag(x, tag);
  }

  lemma OfTagHalves(list: seq<Item>, p: nat, tag: int)
    requires p <= |list|
    ensures OfTag(list, tag) == OfTag(list[..p], tag) + OfTag(list[p..], tag)
  {
    assert list == list[..p] + list[p..];
    OfTagJoins(list[..p], list[p..], tag);
  }

  lemma NoneBehind(list: seq<Item>, tag: int)
    requires Sorted(list)
    ensures OfTag(list[Place(list, tag)..], tag) == []
  {
    NoneOfTag(list[Place(list, tag)..], tag);
  }

  /** A new item comes after the ones with the same tag. */
  lemma InsertGoesLast(list: seq<Item>, x: Item, tag: int)
    requires Sorted(list)
    ensures OfTag(Insert(list, x), tag) == OfTag(list, tag) + IfTag(x, tag)
  {
    var p := Place(list, x.tag);
    OfTagSplit(list[..p], x, list[p..], tag);
    OfTagHalves(list, p, tag);
    NoneBehind(list, x.tag);
    OneEmpty(OfTag(list[..p], tag), IfTag(x, tag), OfTag(list[p..], tag));
  }

  lemma OneEmpty(a: seq<Item>, b: seq<Item>, c: seq<Item>)
    requires b == [] || c == []
    ensures (a + b) + c == (a + c) + b
  {
  }

  lemma {:induction false} InsertAllSorts(list: seq<Item>, xs: seq<Item>)
    requires Sorted(list)
    ensures |InsertAll(list, xs)| == |list| + |xs| && Sorted(InsertAll(list, xs))
    decreases |xs|
  {
    if xs != [] {
      InsertKeepsSorted(list, xs[0]);
      InsertAllSorts(Insert(list, xs[0]), xs[1..]);
    }
  }

  lemma {:induction false} InsertAllIsStable(list: seq<Item>, xs: seq<Item>, tag: int)
    requires Sorted(list)
    ensures OfTag(InsertAll(list, xs), tag) == OfTag(list, tag) + OfTag(xs, tag)
    decreases |xs|
  {
    if xs == [] {
      assert OfTag(list, tag) + [] == OfTag(list, tag);
    } else {
      var x, rest := xs[0], xs[1..];
      InsertKeepsSorted(list, x);
      InsertGoesLast(list, x, tag);
      InsertAllIsStable(Insert(list, x), rest, tag);
      Assoc(OfTag(list, tag), IfTag(x, tag), OfTag(rest, tag));
    }
  }

  /** Inserting one by one sorts by tag and keeps the order among equal tags. */
  lemma StableSort(list: seq<Item>, xs: seq<Item>, tag: int)
    requires Sorted(list)
    ensures var r := InsertAll(list, xs);
            |r| == |list| + |xs| && Sorted(r) && OfTag(r, tag) == OfTag(list, tag) + OfTag(xs, tag)
  {
    InsertAllSorts(list, xs);
    InsertAllIsStable(list, xs, tag);
  }

  lemma FrontOf(list: seq<Item>, tag: int)
    requires Sorted(list)
    ensures list == [] || tag < list[0].tag ==> OfTag(list, tag) == []
    ensures list != [] && tag == list[0].tag ==> OfTag(list, tag) != [] && OfTag(list, tag)[0] == list[0]
  {
    if list == [] || tag < list[0].tag {
      NoneOfTag(list, tag);
    }
  }

  lemma SameTail(p: seq<Item>, a: seq<Item>, b: seq<Item>)
    requires p + a == p + b
    ensures a == b
  {
    assert (p + a)[|p|..] == a && (p + b)[|p|..] == b;
  }

  /** A sorted list is determined by its items of each tag, so there is only one stable
      sort. */
  lemma {:induction false} SortIsUnique(a: seq<Item>, b: seq<Item>)
    requires Sorted(a) && Sorted(b) && forall t :: OfTag(a, t) == OfTag(b, t)
    ensures a == b
    decreases |a|
  {
    if a != [] { FrontOf(a, a[0].tag); FrontOf(b, a[0].tag); }
    if b != [] { FrontOf(b, b[0].tag); FrontOf(a, b[0].tag); }
    assert a == [] <==> b == [];
    if a != [] {
      assert a[0] == b[0];
      forall t ensures OfTag(a[1..], t) == OfTag(b[1..], t) {
        assert OfTag(a, t) == OfTag(b, t);
        SameTail(IfTag(a[0], t), OfTag(a[1..], t), OfTag(b[1..], t));
      }
      SortIsUnique(a[1..], b[1..]);
      assert a == [a[0]] + a[1..] && b == [b[0]] + b[1..];
    }
  }

  // ---------- what a list says about the attributes it came from ----------

  /** The words are the bytes in pairs, low byte first; an odd last byte stands alone. */
  predicate Spells(words: seq<Word>, value: seq<Byte>) {
    && |words| == (|value| + 1) / 2
    && forall k :: 0 <= k < |words| ==>
         words[k] == value[2 * k] + (if 2 * k + 1 < |value| then 0x100 * (value[2 * k + 1] as int) else 0)
  }

  predicate StandsFor(x: Item, a: Attr) {
    x.tag == a.tag && Spells(x.words, a.value)
  }

  predicate AllStandFor(items: seq<Item>, attrs: seq<Attr>) {
    |items| == |attrs| && forall j :: 0 <= j < |items| ==> StandsFor(items[j], attrs[j])
  }

  /** The attributes with a tag, in order. */
  function AttrsOf(attrs: seq<Attr>, tag: int): (r: seq<Attr>) {
    if attrs == [] then []
    else (if attrs[0].tag == tag then [attrs[0]] else []) + AttrsOf(attrs[1..], tag)
  }

  /** The items are sorted by tag, and of each tag they are those of the attributes with it,
      in order and with their values. */
  ghost predicate Represents(items: seq<Item>, attrs: seq<Attr>) {
    Sorted(items) && |items| == |attrs| && forall tag :: AllStandFor(OfTag(items, tag), AttrsOf(attrs, tag))
  }

  lemma ItemStandsFor(a: Attr)
    ensures StandsFor(ItemOf(a), a)
  {
    var v := a.value;
    forall k | 0 <= k < |Words(v)|
      ensures Words(v)[k] == v[2 * k] + if 2 * k + 1 < |v| then 0x100 * (v[2 * k + 1] as int) else 0
    {
      WordsAt(v, k);
    }
  }

  lemma {:induction false} ItemsStandFor(attrs: seq<Attr>, tag: int)
    ensures AllStandFor(OfTag(ItemsOf(attrs), tag), AttrsOf(attrs, tag))
  {
    if attrs != [] {
      ItemsStandFor(attrs[1..], tag);
      ItemStandsFor(attrs[0]);
      OfTagCons(ItemOf(attrs[0]), ItemsOf(attrs[1..]), tag);
    }
  }

  /** Inserting the items of the attributes one by one gives a list that represents them. */
  lemma InsertedRepresent(attrs: seq<Attr>)
    ensures Represents(InsertAll([], ItemsOf(attrs)), attrs)
  {
    var items := InsertAll([], ItemsOf(attrs));
    InsertAllSorts([], ItemsOf(attrs));
    forall tag ensures AllStandFor(OfTag(items, tag), AttrsOf(attrs, tag)) {
      InsertAllIsStable([], ItemsOf(attrs), tag);
      ItemsStandFor(attrs, tag);
      assert OfTag([], tag) + OfTag(ItemsOf(attrs), tag) == OfTag(ItemsOf(attrs), tag);
    }
  }

  // ---------- finding and removing ----------

  /** The first item with the tag; the length of the list if there is none. */
  function IndexOf(list: seq<Item>, tag: int): (r: nat)
    ensures r <= |list|
    ensures r < |list| ==> list[r].tag == tag
    ensures forall i :: 0 <= i < r ==> list[i].tag != tag
  {
    if list == [] || list[0].tag == tag then 0 else 1 + IndexOf(list[1..], tag)
  }

  function Without(list: seq<Item>, i: nat): (r: seq<Item>)
    requires i < |list|
  {
    list[..i] + list[i + 1..]
  }

  lemma SplitAt(list: seq<Item>, i: nat, tag: int)
    requires i < |list|
    ensures OfTag(list, tag) == OfTag(list[..i], tag) + IfTag(list[i], tag) + OfTag(list[i + 1..], tag)
    ensures OfTag(Without(list, i), tag) == OfTag(list[..i], tag) + OfTag(list[i + 1..], tag)
  {
    assert list == list[..i] + [list[i]] + list[i + 1..];
    OfTagSplit(list[..i], list[i], list[i + 1..], tag);
    OfTagJoins(list[..i], list[i + 1..], tag);
  }

  lemma FirstEmpty(a: seq<Item>, b: seq<Item>, c: seq<Item>)
    requires a == []
    ensures a + b + c == b + c && a + c == c
  {
  }

  /** The item found is the first of its tag, and removing it leaves the others. */
  lemma FoundIsFirst(list: seq<Item>, tag: int)
    ensures var i := IndexOf(list, tag);
            if i == |list| then OfTag(list, tag) == []
            else OfTag(list, tag) == [list[i]] + OfTag(Without(list, i), tag)
  {
    var i := IndexOf(list, tag);
    if i == |list| {
      NoneOfTag(list, tag);
    } else {
      NoneOfTag(list[..i], tag);
      SplitAt(list, i, tag);
      FirstEmpty(OfTag(list[..i], tag), [list[i]], OfTag(list[i + 1..], tag));
    }
  }

  lemma RemoveLeavesOthers(list: seq<Item>, i: nat, tag: int)
    requires i < |list| && list[i].tag != tag
    ensures OfTag(Without(list, i), tag) == OfTag(list, tag)
    ensures Sorted(list) ==> Sorted(Without(list, i))
  {
    SplitAt(list, i, tag);
    assert OfTag(list[..i], tag) + [] == OfTag(list[..i], tag);
  }
}
