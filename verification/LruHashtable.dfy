/** `SL_LRUHashtable`: a hash map whose nodes are threaded on a doubly linked list, most recently
    used first. */
module LruHashtable {
  import opened Options

  // ----- the recency sequence -------------------------------------------------------------

  datatype Entry<K, V> = Entry(key: K, data: V)

  /** The position of `key`, or the length of the sequence when it is absent. */
  function IndexOf<K(==), V>(s: seq<Entry<K, V>>, key: K): (i: nat)
    ensures i <= |s| && (i < |s| ==> s[i].key == key)
    ensures forall j :: 0 <= j < i ==> s[j].key != key
  {
    if s == [] || s[0].key == key then 0 else 1 + IndexOf(s[1..], key)
  }

  function Without<T>(s: seq<T>, i: nat): (r: seq<T>)
    requires i < |s|
    ensures |r| == |s| - 1 && forall j :: 0 <= j < |r| ==> r[j] == if j < i then s[j] else s[j + 1]
  {
    s[..i] + s[i + 1..]
  }

  /** A known key moves to the front with its new data; a new one goes to the front, after the
      last entry has made room if the table is full. */
  function Added<K(==), V>(s: seq<Entry<K, V>>, key: K, data: V, maxSize: nat): (r: seq<Entry<K, V>>) {
    var i := IndexOf(s, key);
    [Entry(key, data)] + if i < |s| then Without(s, i) else if |s| >= maxSize then DropLast(s) else s
  }

  function DropLast<T>(s: seq<T>): (r: seq<T>) { if s == [] then s else s[..|s| - 1] }

  function Got<K(==), V>(s: seq<Entry<K, V>>, key: K): (r: seq<Entry<K, V>>) {
    var i := IndexOf(s, key);
    if i < |s| then [s[i]] + Without(s, i) else s
  }

  function Removed<K(==), V>(s: seq<Entry<K, V>>, key: K): (r: seq<Entry<K, V>>) {
    var i := IndexOf(s, key);
    if i < |s| then Without(s, i) else s
  }

  // ----- the linked table -----------------------------------------------------------------

  class Node<K, V> {
    const key: K
    var data: V
    var prev: Node?<K, V>
    var next: Node?<K, V>

    constructor (key: K, data: V)
      ensures this.key == key && this.data == data && prev == null && next == null
    {
      this.key, this.data, prev, next := key, data, null, null;
    }
  }

  class Table<K(==), V> {
    var maxSize: nat
    var elements: map<K, Node<K, V>>
    var head: Node?<K, V>
    var tail: Node?<K, V>
    ghost var order: seq<Node<K, V>>

    /** The list runs through exactly the nodes of the map, linked both ways. */
    ghost predicate Valid()
      reads this, order
    {
      Indexed(elements, order) && Ends(head, tail, order) && Linked(order)
    }

    ghost function Contents(): (r: seq<Entry<K, V>>)
      reads this, order
    {
      Entries(order)
    }

    /** The nodes are those the list had before, or new ones. */
    twostate predicate OwnNodes()
      reads this
    {
      forall x :: x in order ==> x in old(order) || fresh(x)
    }

    twostate lemma NewNodeFirst(new it: Node<K, V>)
      requires fresh(it) && order == [it] + old(order)
      ensures OwnNodes()
    {}

    twostate lemma SameNodes()
      requires order == old(order)
      ensures OwnNodes()
    {}

    /** Taking out node `i`, and putting it in front or not, needs no other nodes. */
    twostate lemma MovedNodes(i: nat)
      requires i < |old(order)|
      requires order == Without(old(order), i) || order == [old(order)[i]] + Without(old(order), i)
      ensures OwnNodes()
    {}

    constructor (maxSize: nat)
      ensures Valid() && Contents() == [] && this.maxSize == maxSize && order == []
    {
      this.maxSize, elements, head, tail, order := maxSize, map[], null, null, [];
    }

    // ----- the pointer writes -------------------------------------------------------------

    /** The conditional writes of `remove_element`: the neighbours of node `i`, or the ends of
        the list, are joined. */
    method Join(it: Node<K, V>, ghost s: seq<Node<K, V>>, ghost i: nat)
      requires i < |s| && s[i] == it && Linked(s) && Different(s) && Ends(head, tail, s)
      modifies this`head, this`tail, s`prev, s`next
      ensures Linked(Without(s, i)) && Ends(head, tail, Without(s, i))
    {
      hide Without;
      assert LinkedAt(s, i);
      if it.prev == null { head := it.next; } else { it.prev.next := it.next; }
      if it.next == null { tail := it.prev; } else { it.next.prev := it.prev; }
      WithoutLinked(At(s, i));
      EndsWithout(s, i);
    }

    /** The writes of `add_element` and `get_element` that move node `i` to the front. */
    method ToFront(it: Node<K, V>, ghost s: seq<Node<K, V>>, ghost i: nat)
      requires i < |s| && s[i] == it && Linked(s) && Different(s) && Ends(head, tail, s)
      modifies this`head, this`tail, s`prev, s`next
      ensures Linked([it] + Without(s, i)) && Ends(head, tail, [it] + Without(s, i))
    {
      hide Without;
      assert LinkedAt(s, i);
      if head != it {
        var before, after := it.prev, it.next;
        before.next := after;
        it.next := head;
        it.prev := null;
        head.prev := it;
        head := it;
        if after != null { after.prev := before; }
        if tail == it { tail := before; }
        FrontLinked(At(s, i));
      } else {
        AlreadyFirst(s);
      }
      EndsWithout(s, i);
    }

    /** Links a node in before the first. */
    method LinkFirst(it: Node<K, V>, ghost s: seq<Node<K, V>>)
      requires it !in s && it.prev == null && Linked(s) && Different(s) && Ends(head, tail, s)
      modifies this`head, this`tail, it`next, s`prev
      ensures Linked([it] + s) && Ends(head, tail, [it] + s)
    {
      it.next := head;
      if head != null { head.prev := it; }
      head := it;
      if tail == null { tail := head; }
      assert ([it] + s)[1..] == s;
      FirstLinked([it] + s);
    }

    /** Cuts the last node off. */
    method CutLast(ghost s: seq<Node<K, V>>)
      requires s != [] && Linked(s) && Different(s) && Ends(head, tail, s)
      modifies this`head, this`tail, s`next
      ensures Linked(DropLast(s)) && Ends(head, tail, DropLast(s))
    {
      assert LinkedAt(s, |s| - 1);
      tail := tail.prev;
      if tail != null { tail.next := null; } else { head := null; }
      LastCut(s);
    }

    // ----- the operations -----------------------------------------------------------------

    /** `elements_ht_.find`, with the place in the order that goes with it. */
    method Find(key: K) returns (it: Node?<K, V>, ghost i: nat)
      requires Valid()
      ensures i == IndexOf(Contents(), key) && (it == null <==> i == |Contents()|)
      ensures it != null ==> i < |order| && order[i] == it
      ensures it == null <==> key !in elements
    {
      hide IndexOf;
      EntriesIndex(elements, order, key);
      i := IndexOf(Contents(), key);
      it := if key in elements then elements[key] else null;
    }

    /** `pop_up`: the key at the end of the list is looked up and erased. */
    method PopUp() returns (last: Option<Entry<K, V>>)
      requires Valid()
      modifies this, order
      ensures Valid() && maxSize == old(maxSize) && (forall k :: k in elements ==> k in old(elements)) && OwnNodes()
      ensures order == DropLast(old(order)) && Contents() == DropLast(old(Contents()))
      ensures last == if old(Contents()) == [] then None else Some(old(Contents())[|old(Contents())| - 1])
    {
      hide Indexed, Linked, Entries, Different, Without;
      if tail == null { return None; }
      var it := tail;
      ghost var s := order;
      DifferentNodes(elements, s);
      IndexedWithout(elements, s, |s| - 1);
      EntriesDropLast(s);
      last := Some(Entry(it.key, it.data));
      elements := elements - {it.key};
      CutLast(s);
      order := DropLast(s);
      SameEntries(s);
      EntriesDropLast(s);
    }

    /** `add_element`: true when the key is new. */
    method AddElement(key: K, data: V) returns (added: bool)
      requires Valid()
      modifies this, order
      ensures Valid() && maxSize == old(maxSize) && OwnNodes()
      ensures added == (IndexOf(old(Contents()), key) == |old(Contents())|)
      ensures Contents() == Added(old(Contents()), key, data, maxSize)
    {
      hide Indexed, Linked, IndexOf, Entries, Different, Ends, Without;
      var it, i := Find(key);
      if it == null {
        SizeIsLength();
        if |elements| >= maxSize {
          var last := PopUp();
        }
        Insert(key, data);
        return true;
      }
      Update(it, data, i);
      return false;
    }

    /** The update of an old node in `add_element`. */
    method Update(it: Node<K, V>, data: V, ghost i: nat)
      requires Valid() && i < |order| && order[i] == it
      modifies this, order
      ensures Valid() && maxSize == old(maxSize) && OwnNodes()
      ensures Contents() == [Entry(it.key, data)] + Without(old(Contents()), i)
    {
      hide Indexed, Linked, Entries, Different, OwnNodes, Without, Ends;
      ghost var s := order;
      OthersDiffer(elements, s, i);
      DifferentNodes(elements, s);
      IndexedMove(elements, s, i);
      it.data := data;
      SameLinks(s);
      ToFront(it, s, i);
      order := [it] + Without(s, i);
      NewFirst(At(s, i));
      MovedNodes(i);
    }

    lemma SizeIsLength()
      requires Valid()
      ensures |elements| == |Contents()|
    {
      NodesAreKeys(elements, order);
    }

    /** The new node of `add_element`. */
    method Insert(key: K, data: V)
      requires Valid() && key !in elements
      modifies this, order
      ensures Valid() && maxSize == old(maxSize) && Contents() == [Entry(key, data)] + old(Contents()) && OwnNodes()
    {
      hide Indexed, Linked, Entries, Different, OwnNodes;
      var it := new Node(key, data);
      ghost var s := order;
      NewNode(elements, s, it);
      elements := elements[key := it];
      LinkFirst(it, s);
      order := [it] + s;
      SameEntries(s);
      EntriesPush(it, s);
      NewNodeFirst(it);
    }

    /** `get_element`: the data, and the entry becomes the most recent. */
    method GetElement(key: K) returns (data: Option<V>)
      requires Valid()
      modifies this, order
      ensures Valid() && maxSize == old(maxSize) && OwnNodes()
      ensures Contents() == Got(old(Contents()), key) && data == Lookup(old(Contents()), key)
    {
      hide Indexed, Linked, IndexOf, Entries, Different, OwnNodes, Without, Ends;
      var it, i := Find(key);
      if it == null {
        SameNodes();
        return None;
      }
      ghost var s := order;
      DifferentNodes(elements, s);
      IndexedMove(elements, s, i);
      data := Some(it.data);
      EntryAt(s, i);
      ToFront(it, s, i);
      order := [it] + Without(s, i);
      SameEntries(s);
      EntriesWithout(s, i);
      MovedNodes(i);
    }

    /** `remove_element`. */
    method RemoveElement(key: K) returns (data: Option<V>)
      requires Valid()
      modifies this, order
      ensures Valid() && maxSize == old(maxSize) && OwnNodes()
      ensures Contents() == Removed(old(Contents()), key) && data == Lookup(old(Contents()), key)
    {
      hide Indexed, Linked, IndexOf, Entries, Different, OwnNodes, Without, Ends;
      var it, i := Find(key);
      if it == null {
        SameNodes();
        return None;
      }
      ghost var s := order;
      DifferentNodes(elements, s);
      IndexedWithout(elements, s, i);
      data := Some(it.data);
      EntryAt(s, i);
      Join(it, s, i);
      elements := elements - {key};
      order := Without(s, i);
      SameEntries(s);
      EntriesWithout(s, i);
      MovedNodes(i);
    }

    method Clear()
      modifies this
      ensures Valid() && maxSize == old(maxSize) && Contents() == [] && OwnNodes()
    {
      elements, head, tail, order := map[], null, null, [];
    }

    method GetMostRecentElement() returns (data: Option<V>)
      requires Valid()
      ensures data == if Contents() == [] then None else Some(Contents()[0].data)
    {
      data := if head == null then None else Some(head.data);
    }

    method GetLeastRecentElement() returns (data: Option<V>)
      requires Valid()
      ensures data == if Contents() == [] then None else Some(Contents()[|Contents()| - 1].data)
    {
      data := if tail == null then None else Some(tail.data);
    }

    /** `get_ordered_keys`: walks the list from its head. */
    method GetOrderedKeys() returns (keys: seq<K>)
      requires Valid()
      ensures keys == Keys(Contents())
    {
      hide Indexed;
      keys := [];
      var p := head;
      ghost var i := 0;
      while p != null
        invariant i <= |order| && p == (if i == |order| then null else order[i])
        invariant keys == Keys(Contents())[..i]
        decreases |order| - i
      {
        assert LinkedAt(order, i);
        keys := keys + [p.key];
        p := p.next;
        i := i + 1;
      }
    }
  }

  function Keys<K, V>(s: seq<Entry<K, V>>): (r: seq<K>)
    ensures |r| == |s| && forall i :: 0 <= i < |s| ==> r[i] == s[i].key
  {
    seq(|s|, i requires 0 <= i < |s| => s[i].key)
  }

  function Lookup<K(==), V>(s: seq<Entry<K, V>>, key: K): (r: Option<V>) {
    var i := IndexOf(s, key);
    if i < |s| then Some(s[i].data) else None
  }

  ghost function Entries<K, V>(s: seq<Node<K, V>>): (r: seq<Entry<K, V>>)
    reads s
    ensures |r| == |s| && forall i :: 0 <= i < |s| ==> r[i] == Entry(s[i].key, s[i].data)
  {
    seq(|s|, i requires 0 <= i < |s| reads s => Entry(s[i].key, s[i].data))
  }

  /** Relinking leaves the entries alone. */
  twostate lemma SameEntries<K, V>(s: seq<Node<K, V>>)
    requires forall i :: 0 <= i < |s| ==> s[i].data == old(s[i].data)
    ensures Entries(s) == old(Entries(s))
  {}

  lemma EntriesWithout<K, V>(s: seq<Node<K, V>>, i: nat)
    requires i < |s|
    ensures Entries(Without(s, i)) == Without(Entries(s), i)
    ensures Entries([s[i]] + Without(s, i)) == [Entries(s)[i]] + Without(Entries(s), i)
  {}

  lemma EntriesPush<K, V>(it: Node<K, V>, s: seq<Node<K, V>>)
    ensures Entries([it] + s) == [Entry(it.key, it.data)] + Entries(s)
  {}

  lemma EntryAt<K, V>(s: seq<Node<K, V>>, i: nat)
    requires i < |s|
    ensures Entries(s)[i] == Entry(s[i].key, s[i].data)
  {}

  lemma EntriesDropLast<K, V>(s: seq<Node<K, V>>)
    requires s != []
    ensures Entries(DropLast(s)) == DropLast(Entries(s)) && Without(s, |s| - 1) == DropLast(s)
    ensures Entries(s)[|s| - 1] == Entry(s[|s| - 1].key, s[|s| - 1].data)
  {}

  /** The node moved to the front has new data, the others have theirs. */
  twostate lemma NewFirst<K, V>(p: Place<K, V>)
    requires p.i < |p.s| && forall j :: 0 <= j < |p.s| && j != p.i ==> p.s[j].data == old(p.s[j].data)
    requires forall j :: 0 <= j < |p.s| && j != p.i ==> p.s[j] != p.s[p.i]
    ensures Entries([p.s[p.i]] + Without(p.s, p.i))
            == [Entry(p.s[p.i].key, p.s[p.i].data)] + Without(old(Entries(p.s)), p.i)
  {}

  /** The map holds the nodes of the sequence, each under its key, and no others. */
  ghost predicate Indexed<K, V>(m: map<K, Node<K, V>>, s: seq<Node<K, V>>) {
    && (forall i :: 0 <= i < |s| ==> s[i].key in m && m[s[i].key] == s[i])
    && (forall k :: k in m ==> m[k] in s && m[k].key == k)
    && (forall i, j :: 0 <= i < j < |s| ==> s[i].key != s[j].key)
  }

  lemma DifferentNodes<K, V>(m: map<K, Node<K, V>>, s: seq<Node<K, V>>)
    requires Indexed(m, s)
    ensures Different(s) && forall i :: 0 <= i < |s| ==> s[i].key in m
  {}

  lemma OthersDiffer<K, V>(m: map<K, Node<K, V>>, s: seq<Node<K, V>>, i: nat)
    requires Indexed(m, s) && i < |s|
    ensures forall j :: 0 <= j < |s| && j != i ==> s[j] != s[i]
  {}

  /** A node whose key is new is itself new. */
  lemma NewNode<K, V>(m: map<K, Node<K, V>>, s: seq<Node<K, V>>, it: Node<K, V>)
    requires Indexed(m, s) && it.key !in m
    ensures Different(s) && it !in s && Indexed(m[it.key := it], [it] + s)
  {
    IndexedPush(m, s, it);
  }

  /** Looking a key up in the map finds its place in the list. */
  lemma EntriesIndex<K, V>(m: map<K, Node<K, V>>, s: seq<Node<K, V>>, key: K)
    requires Indexed(m, s)
    ensures var i := IndexOf(Entries(s), key);
            if key in m then i < |s| && s[i] == m[key] else i == |s|
  {
    hide Entries;
  }

  twostate lemma SameLinks<K, V>(s: seq<Node<K, V>>)
    requires old(Linked(s)) && forall j :: 0 <= j < |s| ==> s[j].prev == old(s[j].prev) && s[j].next == old(s[j].next)
    ensures Linked(s)
  {
    forall j | 0 <= j < |s| ensures LinkedAt(s, j) { assert old(LinkedAt(s, j)); }
  }

  lemma IndexedWithout<K, V>(m: map<K, Node<K, V>>, s: seq<Node<K, V>>, i: nat)
    requires Indexed(m, s) && i < |s|
    ensures Indexed(m - {s[i].key}, Without(s, i))
  {
    hide Indexed, Without;
    var rest, t := m - {s[i].key}, Without(s, i);
    forall j | 0 <= j < |t| ensures t[j].key in rest && rest[t[j].key] == t[j] {
      PartAt(s, i, j);
      IndexedAt(m, s, i, Past(i, j));
    }
    forall k | k in rest ensures rest[k] in t && rest[k].key == k {
      IndexedKey(m, s, k);
      StillIn(s, i, m[k]);
    }
    forall j, k | 0 <= j < k < |t| ensures t[j].key != t[k].key {
      PartAt(s, i, j);
      PartAt(s, i, k);
      IndexedAt(m, s, Past(i, j), Past(i, k));
    }
    MakeIndexed(rest, t);
  }

  /** Where the entry at `j` was before the one at `i` was taken out. */
  function Past(i: nat, j: nat): (k: nat) { if j < i then j else j + 1 }

  lemma PartAt<T>(s: seq<T>, i: nat, j: nat)
    requires i < |s| && j < |s| - 1
    ensures Without(s, i)[j] == s[Past(i, j)]
  {}

  lemma IndexedAt<K, V>(m: map<K, Node<K, V>>, s: seq<Node<K, V>>, i: nat, k: nat)
    requires Indexed(m, s) && i < |s| && k < |s| && i != k
    ensures s[k].key in m && m[s[k].key] == s[k] && s[k].key != s[i].key
  {}

  lemma IndexedKey<K, V>(m: map<K, Node<K, V>>, s: seq<Node<K, V>>, k: K)
    requires Indexed(m, s) && k in m
    ensures m[k] in s && m[k].key == k
  {}

  lemma MakeIndexed<K, V>(m: map<K, Node<K, V>>, s: seq<Node<K, V>>)
    requires forall i :: 0 <= i < |s| ==> s[i].key in m && m[s[i].key] == s[i]
    requires forall k :: k in m ==> m[k] in s && m[k].key == k
    requires forall i, j :: 0 <= i < j < |s| ==> s[i].key != s[j].key
    ensures Indexed(m, s)
  {}

  lemma IndexedPush<K, V>(m: map<K, Node<K, V>>, s: seq<Node<K, V>>, it: Node<K, V>)
    requires Indexed(m, s) && it.key !in m
    ensures Indexed(m[it.key := it], [it] + s)
  {}

  lemma IndexedMove<K, V>(m: map<K, Node<K, V>>, s: seq<Node<K, V>>, i: nat)
    requires Indexed(m, s) && i < |s|
    ensures Indexed(m, [s[i]] + Without(s, i))
  {
    IndexedWithout(m, s, i);
    IndexedPush(m - {s[i].key}, Without(s, i), s[i]);
    assert m == (m - {s[i].key})[s[i].key := s[i]];
  }

  lemma StillIn<T>(s: seq<T>, i: nat, x: T)
    requires i < |s| && x in s && x != s[i]
    ensures x in Without(s, i)
  {
    var j :| 0 <= j < |s| && s[j] == x;
    assert Without(s, i)[if j < i then j else j - 1] == x;
  }

  /** Neighbours in the sequence point at one another, and the ends at nothing. */
  ghost predicate Linked<K, V>(s: seq<Node<K, V>>)
    reads s
  {
    forall i :: 0 <= i < |s| ==> LinkedAt(s, i)
  }

  ghost predicate LinkedAt<K, V>(s: seq<Node<K, V>>, i: nat)
    requires i < |s|
    reads s
  {
    && s[i].prev == (if i == 0 then null else s[i - 1])
    && s[i].next == (if i == |s| - 1 then null else s[i + 1])
  }

  /** A node by its number. */
  datatype Place<K, V> = At(s: seq<Node<K, V>>, i: nat)

  /** Every node but the one at `p` has kept its links, or has taken over those of that one; the
      first `from` are not asked for theirs backwards. */
  twostate predicate Bypassed<K, V>(p: Place<K, V>, from: nat)
    requires p.i < |p.s|
    reads p.s
  {
    && (forall j :: 0 <= j < |p.s| && j != p.i && j != p.i - 1 ==> p.s[j].next == old(p.s[j].next))
    && (p.i > 0 ==> p.s[p.i - 1].next == old(p.s[p.i].next))
    && (forall j :: from <= j < |p.s| && j != p.i && j != p.i + 1 ==> p.s[j].prev == old(p.s[j].prev))
    && (p.i + 1 < |p.s| ==> p.s[p.i + 1].prev == old(p.s[p.i].prev))
  }

  twostate lemma WithoutLinked<K, V>(p: Place<K, V>)
    requires p.i < |p.s| && old(Linked(p.s)) && Bypassed(p, 0)
    ensures Linked(Without(p.s, p.i))
  {
    var s, i := p.s, p.i;
    var t := Without(s, i);
    assert old(LinkedAt(s, i));
    forall j | 0 <= j < |t| ensures LinkedAt(t, j) {
      assert old(LinkedAt(s, if j < i then j else j + 1));
    }
  }

  twostate lemma FrontLinked<K, V>(p: Place<K, V>)
    requires 0 < p.i < |p.s| && old(Linked(p.s)) && Bypassed(p, 1)
    requires p.s[p.i].next == p.s[0] && p.s[p.i].prev == null && p.s[0].prev == p.s[p.i]
    ensures Linked([p.s[p.i]] + Without(p.s, p.i))
  {
    var s, i := p.s, p.i;
    var t := [s[i]] + Without(s, i);
    assert old(LinkedAt(s, i));
    forall j | 0 <= j < |t| ensures LinkedAt(t, j) {
      assert old(LinkedAt(s, if j == 0 then i else if j <= i then j - 1 else j));
    }
  }

  lemma AlreadyFirst<K, V>(s: seq<Node<K, V>>)
    requires s != []
    ensures [s[0]] + Without(s, 0) == s
  {}

  twostate lemma FirstLinked<K, V>(t: seq<Node<K, V>>)
    requires t != [] && old(Linked(t[1..])) && t[0].prev == null && t[0].next == (if |t| == 1 then null else t[1])
    requires forall j :: 1 <= j < |t| ==> t[j].next == old(t[j].next)
    requires forall j :: 2 <= j < |t| ==> t[j].prev == old(t[j].prev)
    requires |t| > 1 ==> t[1].prev == t[0]
    ensures Linked(t)
  {
    forall j | 0 <= j < |t| ensures LinkedAt(t, j) {
      if j > 0 { assert old(LinkedAt(t[1..], j - 1)); }
    }
  }

  twostate lemma LastCut<K, V>(s: seq<Node<K, V>>)
    requires s != [] && old(Linked(s))
    requires forall j :: 0 <= j < |s| ==> s[j].prev == old(s[j].prev)
    requires forall j :: 0 <= j < |s| - 2 ==> s[j].next == old(s[j].next)
    requires |s| > 1 ==> s[|s| - 2].next == null
    ensures Linked(DropLast(s))
  {
    var t := DropLast(s);
    forall j | 0 <= j < |t| ensures LinkedAt(t, j) { assert old(LinkedAt(s, j)); }
  }

  lemma EndsWithout<K, V>(s: seq<Node<K, V>>, i: nat)
    requires i < |s|
    ensures var t := Without(s, i);
            && |t| == |s| - 1 && (t != [] ==> t[0] == s[if i == 0 then 1 else 0])
            && (t != [] ==> t[|t| - 1] == s[if i == |t| then |t| - 1 else |t|])
  {}

  ghost predicate Different<T>(s: seq<T>) { forall i, j :: 0 <= i < j < |s| ==> s[i] != s[j] }

  ghost predicate Ends<K, V>(head: Node?<K, V>, tail: Node?<K, V>, s: seq<Node<K, V>>) {
    head == (if |s| == 0 then null else s[0]) && tail == (if |s| == 0 then null else s[|s| - 1])
  }

  lemma NoNodes<K, V>(m: map<K, Node<K, V>>, s: seq<Node<K, V>>)
    requires Indexed(m, s)
    ensures s == [] ==> m == map[]
  {
    assert forall k :: k in m ==> m[k] in s;
  }

  /** The map is as large as the list is long. */
  lemma {:induction false} NodesAreKeys<K, V>(m: map<K, Node<K, V>>, s: seq<Node<K, V>>)
    requires Indexed(m, s)
    ensures |m| == |s|
  {
    if s == [] {
      NoNodes(m, s);
    } else {
      var last := |s| - 1;
      assert Without(s, last) == s[..last];
      IndexedWithout(m, s, last);
      NodesAreKeys(m - {s[last].key}, s[..last]);
      assert m == (m - {s[last].key})[s[last].key := s[last]];
    }
  }
}
