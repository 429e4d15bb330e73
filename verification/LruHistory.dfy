/** Whole runs of the table: what the recency sequence says about the history of operations. */
module LruHistory {
  import opened Options
  import opened LruHashtable

  datatype Op<K, V> = Add(key: K, data: V) | Get(key: K) | Remove(key: K) | Pop | Clear

  function Step<K(==), V>(s: seq<Entry<K, V>>, op: Op<K, V>, maxSize: nat): (r: seq<Entry<K, V>>) {
    match op
    case Add(key, data) => Added(s, key, data, maxSize)
    case Get(key) => Got(s, key)
    case Remove(key) => Removed(s, key)
    case Pop => DropLast(s)
    case Clear => []
  }

  function Run<K(==), V>(ops: seq<Op<K, V>>, maxSize: nat): (r: seq<Entry<K, V>>) {
    if ops == [] then [] else Step(Run(ops[..|ops| - 1], maxSize), ops[|ops| - 1], maxSize)
  }

  /** The linked table after any history holds what `Run` says. */
  method Replay<K(==), V>(ops: seq<Op<K, V>>, maxSize: nat) returns (table: Table<K, V>)
    ensures fresh(table) && fresh(table.order) && table.Valid() && table.Contents() == Run(ops, maxSize)
  {
    hide Added, Got, Removed, DropLast;
    table := new Table(maxSize);
    for i := 0 to |ops|
      invariant table.Valid() && table.maxSize == maxSize && fresh(table) && fresh(table.order)
      invariant table.Contents() == Run(ops[..i], maxSize)
    {
      assert ops[..i + 1][..i] == ops[..i];
      Apply(table, ops[i]);
    }
    assert ops[..|ops|] == ops;
  }

  /** One operation on the linked table. */
  method Apply<K(==), V>(table: Table<K, V>, op: Op<K, V>)
    requires table.Valid()
    modifies table, table.order
    ensures table.Valid() && table.maxSize == old(table.maxSize) && table.OwnNodes()
    ensures table.Contents() == Step(old(table.Contents()), op, table.maxSize)
  {
    hide Added, Got, Removed, DropLast;
    match op
    case Add(key, data) => var added := table.AddElement(key, data);
    case Get(key) => var data := table.GetElement(key);
    case Remove(key) => var data := table.RemoveElement(key);
    case Pop => var last := table.PopUp();
    case Clear => table.Clear();
  }

  /** The keys that a walk of the linked table finds after any history: the one used last comes
      first, and so on, and there are never more than the capacity. */
  method KeysAfter<K(==), V>(ops: seq<Op<K, V>>, maxSize: nat) returns (keys: seq<K>)
    ensures forall i, j :: 0 <= i < j < |keys| ==> LastTouch(ops, keys[i]) > LastTouch(ops, keys[j])
    ensures keys == Keys(Run(ops, maxSize)) && |keys| <= Most(1, maxSize)
  {
    var table := Replay(ops, maxSize);
    RunIsRecent(ops, maxSize);
    keys := table.GetOrderedKeys();
  }

  /** When `key` was last added or asked for; -1 if never. */
  function LastTouch<K(==), V>(ops: seq<Op<K, V>>, key: K): (t: int)
    ensures -1 <= t < |ops|
  {
    if ops == [] then -1
    else
      var op := ops[|ops| - 1];
      if (op.Add? || op.Get?) && op.key == key then |ops| - 1 else LastTouch(ops[..|ops| - 1], key)
  }

  /** The data of the last `Add` of `key`. */
  function LastAdded<K(==), V>(ops: seq<Op<K, V>>, key: K): (d: Option<V>) {
    if ops == [] then None
    else
      var op := ops[|ops| - 1];
      if op.Add? && op.key == key then Some(op.data) else LastAdded(ops[..|ops| - 1], key)
  }

  ghost predicate Recent<K, V>(ops: seq<Op<K, V>>, s: seq<Entry<K, V>>) {
    && (forall i, j :: 0 <= i < j < |s| ==> LastTouch(ops, s[i].key) > LastTouch(ops, s[j].key))
    && (forall i :: 0 <= i < |s| ==> LastAdded(ops, s[i].key) == Some(s[i].data))
  }

  function Most(a: nat, b: nat): (r: nat) { if a < b then b else a }

  /** In every run the live entries are listed by decreasing time of last use, each with the data
      last added for its key, and there are never more than the capacity (or one, if that is 0). */
  lemma {:induction false} RunIsRecent<K, V>(ops: seq<Op<K, V>>, maxSize: nat)
    ensures Recent(ops, Run(ops, maxSize)) && |Run(ops, maxSize)| <= Most(1, maxSize)
  {
    if ops != [] {
      RunIsRecent(ops[..|ops| - 1], maxSize);
      StepIsRecent(ops, Run(ops[..|ops| - 1], maxSize), maxSize);
    }
  }

  lemma StepIsRecent<K, V>(ops: seq<Op<K, V>>, s: seq<Entry<K, V>>, maxSize: nat)
    requires ops != [] && Recent(ops[..|ops| - 1], s) && |s| <= Most(1, maxSize)
    ensures Recent(ops, Step(s, ops[|ops| - 1], maxSize)) && |Step(s, ops[|ops| - 1], maxSize)| <= Most(1, maxSize)
  {
    hide IndexOf, Recent;
    var op := ops[|ops| - 1];
    var before := ops[..|ops| - 1];
    if op.Add? || op.Get? || op.Remove? { OneKey(before, s, op.key); }
    match op
    case Add(key, data) =>
      var i := IndexOf(s, key);
      if i < |s| {
        PartIsRecent(before, s, i);
        FrontIsRecent(ops, Without(s, i), Entry(key, data));
      } else {
        DropIsRecent(before, s);
        FrontIsRecent(ops, if |s| >= maxSize then DropLast(s) else s, Entry(key, data));
      }
    case Get(key) =>
      var i := IndexOf(s, key);
      if i < |s| {
        PartIsRecent(before, s, i);
        EntryIsRecent(before, s, i);
        FrontIsRecent(ops, Without(s, i), s[i]);
      } else {
        OthersAreRecent(ops, s);
      }
    case Remove(key) =>
      var i := IndexOf(s, key);
      OthersAreRecent(ops, s);
      if i < |s| { PartIsRecent(ops, s, i); }
    case Pop =>
      DropIsRecent(before, s);
      OthersAreRecent(ops, DropLast(s));
    case Clear => NoneIsRecent(ops);
  }

  lemma NoneIsRecent<K, V>(ops: seq<Op<K, V>>)
    ensures Recent(ops, [])
  {}

  lemma EntryIsRecent<K, V>(ops: seq<Op<K, V>>, s: seq<Entry<K, V>>, i: nat)
    requires Recent(ops, s) && i < |s|
    ensures LastAdded(ops, s[i].key) == Some(s[i].data)
  {}

  lemma PartIsRecent<K, V>(ops: seq<Op<K, V>>, s: seq<Entry<K, V>>, i: nat)
    requires Recent(ops, s) && i < |s|
    ensures Recent(ops, Without(s, i))
  {
    hide LastTouch, LastAdded;
  }

  lemma DropIsRecent<K, V>(ops: seq<Op<K, V>>, s: seq<Entry<K, V>>)
    requires Recent(ops, s)
    ensures Recent(ops, DropLast(s))
  {
    hide LastTouch, LastAdded;
  }

  /** An operation on another key leaves an entry's history alone. */
  lemma OthersAreRecent<K, V>(ops: seq<Op<K, V>>, s: seq<Entry<K, V>>)
    requires ops != [] && Recent(ops[..|ops| - 1], s)
    requires var op := ops[|ops| - 1];
             op.Add? || op.Get? ==> forall i :: 0 <= i < |s| ==> s[i].key != op.key
    ensures Recent(ops, s)
  {}

  /** The key just used goes in front of the others. */
  lemma FrontIsRecent<K, V>(ops: seq<Op<K, V>>, s: seq<Entry<K, V>>, e: Entry<K, V>)
    requires ops != [] && Recent(ops[..|ops| - 1], s)
    requires var op := ops[|ops| - 1];
             && (op.Add? || op.Get?) && op.key == e.key
             && (if op.Add? then op.data == e.data else LastAdded(ops[..|ops| - 1], e.key) == Some(e.data))
             && forall i :: 0 <= i < |s| ==> s[i].key != e.key
    ensures Recent(ops, [e] + s)
  {
    OthersAreRecent(ops, s);
    assert LastTouch(ops, e.key) == |ops| - 1;
    forall i | 0 <= i < |s| ensures LastTouch(ops, s[i].key) < |ops| - 1 {
      assert LastTouch(ops, s[i].key) == LastTouch(ops[..|ops| - 1], s[i].key);
    }
  }

  /** A key has one place. */
  lemma OneKey<K, V>(ops: seq<Op<K, V>>, s: seq<Entry<K, V>>, key: K)
    requires Recent(ops, s)
    ensures forall i :: 0 <= i < |s| && s[i].key == key ==> i == IndexOf(s, key)
  {
    KeysDiffer(ops, s);
  }

  lemma KeysDiffer<K, V>(ops: seq<Op<K, V>>, s: seq<Entry<K, V>>)
    requires Recent(ops, s)
    ensures forall i, j :: 0 <= i < j < |s| ==> s[i].key != s[j].key
  {}

  /** Adding a new key to a full table drops one entry, the one whose key was used longest ago,
      and keeps all the others. */
  lemma EvictsLeastRecent<K, V>(ops: seq<Op<K, V>>, maxSize: nat, key: K, data: V)
    requires var s := Run(ops, maxSize); s != [] && |s| >= maxSize && IndexOf(s, key) == |s|
    ensures var s, last := Run(ops, maxSize), |Run(ops, maxSize)| - 1;
            && Run(ops + [Add(key, data)], maxSize) == [Entry(key, data)] + s[..last]
            && forall i :: 0 <= i < last ==> LastTouch(ops, s[i].key) > LastTouch(ops, s[last].key)
  {
    RunIsRecent(ops, maxSize);
    assert (ops + [Add(key, data)])[..|ops|] == ops;
  }

  // ----- what capacity does ---------------------------------------------------------------

  ghost predicate OnlyAdds<K, V>(ops: seq<Op<K, V>>) { forall i :: 0 <= i < |ops| ==> ops[i].Add? }

  /** For a history of additions the table is the front part of what a larger one would hold:
      a smaller capacity changes nothing but the length. */
  lemma {:induction false} LargerHoldsMore<K, V>(ops: seq<Op<K, V>>, small: nat, large: nat)
    requires OnlyAdds(ops) && 0 < small <= large
    ensures var t := Run(ops, large); Run(ops, small) == if |t| <= small then t else t[..small]
  {
    if ops != [] {
      var before := ops[..|ops| - 1];
      LargerHoldsMore(before, small, large);
      RunIsRecent(before, large);
      var op := ops[|ops| - 1];
      AddToPrefix(before, Run(before, large), op.key, op.data, small, large);
    }
  }

  lemma AddToPrefix<K, V>(ops: seq<Op<K, V>>, t: seq<Entry<K, V>>, key: K, data: V, small: nat, large: nat)
    requires 0 < small <= large && Recent(ops, t) && |t| <= large
    ensures var s := if |t| <= small then t else t[..small];
            var t' := Added(t, key, data, large);
            Added(s, key, data, small) == if |t'| <= small then t' else t'[..small]
  {
    hide IndexOf, Recent;
    KeysDiffer(ops, t);
    if |t| > small {
      IndexIs(t, t[..small], key);
      var i := IndexOf(t, key);
      if i < small { WithoutFront(t, i, small); }
    }
  }

  /** A key has the same place in a front part, or none. */
  lemma IndexIs<K, V>(t: seq<Entry<K, V>>, s: seq<Entry<K, V>>, key: K)
    requires s <= t && forall i, j :: 0 <= i < j < |t| ==> t[i].key != t[j].key
    ensures var i := IndexOf(t, key); IndexOf(s, key) == if i < |s| then i else |s|
  {
    hide IndexOf;
    var i, k := IndexOf(t, key), IndexOf(s, key);
    assert k < |s| ==> s[k] == t[k];
    assert i < |s| ==> s[i] == t[i];
  }

  lemma WithoutFront<T>(t: seq<T>, i: nat, n: nat)
    requires i < n <= |t|
    ensures Without(t[..n], i) == Without(t, i)[..n - 1]
  {}

  // ----- which keys are live --------------------------------------------------------------

  ghost function KeySet<K, V>(s: seq<Entry<K, V>>): (r: set<K>) { set i | 0 <= i < |s| :: s[i].key }

  /** All keys but the one used longest ago. */
  ghost function WithoutOldest<K(!new), V>(ops: seq<Op<K, V>>, live: set<K>): (r: set<K>) {
    set k | k in live && exists j :: j in live && LastTouch(ops, j) < LastTouch(ops, k)
  }

  /** The live keys, as sets: a new key makes the one used longest ago go when there are too many,
      a removed key goes and no other does. */
  ghost function Live<K(!new), V>(ops: seq<Op<K, V>>, maxSize: nat): (live: set<K>) {
    if ops == [] then {}
    else
      var before := ops[..|ops| - 1];
      var were := Live(before, maxSize);
      match ops[|ops| - 1]
      case Add(key, _) =>
        (if key !in were && |were| >= maxSize then WithoutOldest(before, were) else were) + {key}
      case Get(_) => were
      case Remove(key) => were - {key}
      case Pop => WithoutOldest(before, were)
      case Clear => {}
  }

  /** After every run exactly the live keys are listed. */
  lemma {:induction false} RunIsLive<K(!new), V>(ops: seq<Op<K, V>>, maxSize: nat)
    ensures KeySet(Run(ops, maxSize)) == Live(ops, maxSize) && |Live(ops, maxSize)| == |Run(ops, maxSize)|
  {
    hide Recent, KeySet, Step, WithoutOldest;
    RunIsRecent(ops, maxSize);
    KeysDiffer(ops, Run(ops, maxSize));
    KeyCount(Run(ops, maxSize));
    if ops == [] {
      NoKeys<K, V>();
    } else {
      var before := ops[..|ops| - 1];
      RunIsLive(before, maxSize);
      RunIsRecent(before, maxSize);
      StepIsLive(before, Run(before, maxSize), ops[|ops| - 1], maxSize);
    }
  }

  lemma NoKeys<K, V>()
    ensures KeySet<K, V>([]) == {}
  {}

  /** Different keys are as many as the entries. */
  lemma {:induction false} KeyCount<K, V>(s: seq<Entry<K, V>>)
    requires forall i, j :: 0 <= i < j < |s| ==> s[i].key != s[j].key
    ensures |KeySet(s)| == |s|
  {
    if s == [] {
      NoKeys<K, V>();
    } else {
      var last := |s| - 1;
      KeyCount(s[..last]);
      assert KeySet(s) == KeySet(s[..last]) + {s[last].key};
      assert s[last].key !in KeySet(s[..last]);
    }
  }

  /** What one operation does to the set of keys. */
  lemma StepIsLive<K(!new), V>(ops: seq<Op<K, V>>, s: seq<Entry<K, V>>, op: Op<K, V>, maxSize: nat)
    requires Recent(ops, s)
    ensures KeySet(Step(s, op, maxSize)) ==
            match op
            case Add(key, _) =>
              (if key !in KeySet(s) && |s| >= maxSize then WithoutOldest(ops, KeySet(s)) else KeySet(s)) + {key}
            case Get(_) => KeySet(s)
            case Remove(key) => KeySet(s) - {key}
            case Pop => WithoutOldest(ops, KeySet(s))
            case Clear => {}
  {
    hide Recent, IndexOf, KeySet, WithoutOldest;
    KeysDiffer(ops, s);
    match op
    case Add(key, data) =>
      Found(s, key);
      KeysDrop(ops, s);
      if IndexOf(s, key) < |s| { KeysWithout(s, IndexOf(s, key)); }
      KeysFront(Entry(key, data),
                if IndexOf(s, key) < |s| then Without(s, IndexOf(s, key)) else if |s| >= maxSize then DropLast(s)
                  else s);
    case Get(key) =>
      if IndexOf(s, key) < |s| {
        KeysWithout(s, IndexOf(s, key));
        KeysFront(s[IndexOf(s, key)], Without(s, IndexOf(s, key)));
      }
    case Remove(key) =>
      Found(s, key);
      if IndexOf(s, key) < |s| { KeysWithout(s, IndexOf(s, key)); }
    case Pop => KeysDrop(ops, s);
    case Clear => NoKeys<K, V>();
  }

  lemma Found<K, V>(s: seq<Entry<K, V>>, key: K)
    ensures key in KeySet(s) <==> IndexOf(s, key) < |s|
  {
    if IndexOf(s, key) < |s| { assert s[IndexOf(s, key)].key == key; }
  }

  lemma KeysWithout<K, V>(s: seq<Entry<K, V>>, i: nat)
    requires i < |s| && forall i, j :: 0 <= i < j < |s| ==> s[i].key != s[j].key
    ensures KeySet(Without(s, i)) == KeySet(s) - {s[i].key} && s[i].key in KeySet(s)
  {
    var t := Without(s, i);
    forall k | k in KeySet(s) - {s[i].key} ensures k in KeySet(t) {
      var j :| 0 <= j < |s| && s[j].key == k;
      assert t[if j < i then j else j - 1].key == k;
    }
    forall k | k in KeySet(t) ensures k in KeySet(s) - {s[i].key} {
      var j :| 0 <= j < |t| && t[j].key == k;
      assert s[if j < i then j else j + 1].key == k;
    }
  }

  lemma KeysFront<K, V>(e: Entry<K, V>, s: seq<Entry<K, V>>)
    ensures KeySet([e] + s) == KeySet(s) + {e.key}
  {
    var t := [e] + s;
    forall k | k in KeySet(s) ensures k in KeySet(t) {
      var j :| 0 <= j < |s| && s[j].key == k;
      assert t[j + 1].key == k;
    }
    assert t[0].key == e.key;
    forall k | k in KeySet(t) ensures k in KeySet(s) + {e.key} {
      var j :| 0 <= j < |t| && t[j].key == k;
      assert j > 0 ==> s[j - 1].key == k;
    }
  }

  /** The last entry is the one used longest ago. */
  lemma KeysDrop<K(!new), V>(ops: seq<Op<K, V>>, s: seq<Entry<K, V>>)
    requires Recent(ops, s)
    ensures KeySet(DropLast(s)) == WithoutOldest(ops, KeySet(s))
  {
    hide LastTouch, LastAdded;
    var t := DropLast(s);
    forall k | k in KeySet(t) ensures k in WithoutOldest(ops, KeySet(s)) {
      var j :| 0 <= j < |t| && t[j].key == k;
      var last := |s| - 1;
      assert s[j].key == k && s[last].key in KeySet(s) && LastTouch(ops, s[last].key) < LastTouch(ops, k);
    }
    forall k | k in WithoutOldest(ops, KeySet(s)) ensures k in KeySet(t) {
      var j :| j in KeySet(s) && LastTouch(ops, j) < LastTouch(ops, k);
      var a :| 0 <= a < |s| && s[a].key == k;
      var b :| 0 <= b < |s| && s[b].key == j;
      assert a < |s| - 1 && t[a].key == k;
    }
  }

  /** The live keys, the times of last use and the data last added leave no choice: nothing else is a
      listing of them. */
  lemma RunIsUnique<K(!new), V>(ops: seq<Op<K, V>>, maxSize: nat, s: seq<Entry<K, V>>)
    ensures s == Run(ops, maxSize) <==> Recent(ops, s) && KeySet(s) == Live(ops, maxSize)
  {
    hide Recent, KeySet, Live;
    RunIsRecent(ops, maxSize);
    RunIsLive(ops, maxSize);
    if Recent(ops, s) && KeySet(s) == Live(ops, maxSize) { SameListing(ops, s, Run(ops, maxSize)); }
  }

  /** Two listings of the same keys are the same. */
  lemma {:induction false} SameListing<K, V>(ops: seq<Op<K, V>>, s: seq<Entry<K, V>>, t: seq<Entry<K, V>>)
    requires Recent(ops, s) && Recent(ops, t) && KeySet(s) == KeySet(t)
    ensures s == t
  {
    hide Recent, KeySet, Without;
    KeysDiffer(ops, s);
    KeysDiffer(ops, t);
    if s == [] || t == [] {
      KeyCount(s);
      KeyCount(t);
    } else {
      SameFirst(ops, s, t);
      PartIsRecent(ops, s, 0);
      PartIsRecent(ops, t, 0);
      KeysWithout(s, 0);
      KeysWithout(t, 0);
      WithoutFirst(s);
      WithoutFirst(t);
      SameListing(ops, s[1..], t[1..]);
      assert s == [s[0]] + s[1..] && t == [t[0]] + t[1..];
    }
  }

  /** Both begin with the key used last. */
  lemma SameFirst<K, V>(ops: seq<Op<K, V>>, s: seq<Entry<K, V>>, t: seq<Entry<K, V>>)
    requires Recent(ops, s) && Recent(ops, t) && KeySet(s) == KeySet(t) && s != [] && t != []
    ensures s[0] == t[0]
  {
    hide LastTouch, LastAdded;
    assert s[0].key in KeySet(t) && t[0].key in KeySet(s);
    var a :| 0 <= a < |t| && t[a].key == s[0].key;
    var b :| 0 <= b < |s| && s[b].key == t[0].key;
    UsedBefore(ops, t, a);
    UsedBefore(ops, s, b);
    assert s[0].key == t[0].key;
    EntryIsRecent(ops, s, 0);
    EntryIsRecent(ops, t, 0);
  }

  lemma UsedBefore<K, V>(ops: seq<Op<K, V>>, s: seq<Entry<K, V>>, i: nat)
    requires Recent(ops, s) && i < |s|
    ensures i > 0 ==> LastTouch(ops, s[i].key) < LastTouch(ops, s[0].key)
  {}

  /** The entries with another key, in order. */
  function Others<K(==), V>(s: seq<Entry<K, V>>, key: K): (r: seq<Entry<K, V>>) {
    if s == [] then [] else (if s[0].key == key then [] else [s[0]]) + Others(s[1..], key)
  }

  /** After any run, removing a key leaves exactly the entries with another one, in the same order. */
  lemma RemovedIsGone<K(!new), V>(ops: seq<Op<K, V>>, maxSize: nat, key: K)
    ensures Run(ops + [Remove(key)], maxSize) == Others(Run(ops, maxSize), key)
    ensures key !in KeySet(Run(ops + [Remove(key)], maxSize))
  {
    hide KeySet, Removed, Others;
    var s := Run(ops, maxSize);
    assert (ops + [Remove(key)])[..|ops|] == ops;
    RunIsRecent(ops, maxSize);
    KeysDiffer(ops, s);
    StepIsLive(ops, s, Remove(key), maxSize);
    RemovedIsOthers(s, key);
  }

  lemma {:induction false} RemovedIsOthers<K, V>(s: seq<Entry<K, V>>, key: K)
    requires forall i, j :: 0 <= i < j < |s| ==> s[i].key != s[j].key
    ensures Removed(s, key) == Others(s, key)
  {
    hide IndexOf, Without, Others;
    FirstOther(s, key);
    if s != [] {
      RemovedIsOthers(s[1..], key);
      assert s == [s[0]] + s[1..];
      if s[0].key == key {
        NotThere(s[1..], key);
        WithoutFirst(s);
      } else if IndexOf(s, key) < |s| {
        WithoutLater(s, IndexOf(s, key));
      }
    }
  }

  lemma FirstOther<K, V>(s: seq<Entry<K, V>>, key: K)
    ensures Others(s, key)
         == if s == [] then [] else (if s[0].key == key then [] else [s[0]]) + Others(s[1..], key)
    ensures IndexOf(s, key) == if s == [] || s[0].key == key then 0 else 1 + IndexOf(s[1..], key)
  {}

  lemma WithoutFirst<T>(s: seq<T>)
    requires s != []
    ensures Without(s, 0) == s[1..] == [] + s[1..]
  {}

  lemma WithoutLater<T>(s: seq<T>, i: nat)
    requires 0 < i < |s|
    ensures Without(s, i) == [s[0]] + Without(s[1..], i - 1)
  {}

  lemma {:induction false} NotThere<K, V>(s: seq<Entry<K, V>>, key: K)
    requires forall i :: 0 <= i < |s| ==> s[i].key != key
    ensures Others(s, key) == s && [] + s == s
  {
    if s != [] {
      NotThere(s[1..], key);
      assert s == [s[0]] + s[1..];
    }
  }

  /** Asking for a key changes the order and nothing else. */
  lemma GotKeeps<K, V>(s: seq<Entry<K, V>>, key: K)
    ensures multiset(Got(s, key)) == multiset(s)
  {
    var i := IndexOf(s, key);
    if i < |s| { assert s == s[..i] + [s[i]] + s[i + 1..]; }
  }

  /** What asking for a key after any history gives: the data last added for it, exactly if it is
      live. */
  method DataAfter<K(==, !new), V>(ops: seq<Op<K, V>>, maxSize: nat, key: K) returns (data: Option<V>)
    ensures data == if key in Live(ops, maxSize) then LastAdded(ops, key) else None
  {
    hide KeySet, IndexOf, Live, Recent, Got, Run;
    var table := Replay(ops, maxSize);
    ghost var s, i := table.Contents(), IndexOf(table.Contents(), key);
    RunIsRecent(ops, maxSize);
    RunIsLive(ops, maxSize);
    Found(s, key);
    if i < |s| { EntryIsRecent(ops, s, i); }
    data := table.GetElement(key);
  }
}
