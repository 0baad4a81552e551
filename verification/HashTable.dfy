/** The bucketed hash table of apk-tools/src/hash.c over the singly linked lists of
    apk-tools/src/apk_defines.h, whose last node points to a sentinel. */
module HashTable {
  import opened Wrappers

  /** Null: not on a list; End: the sentinel LIST_END. */
  datatype Link = Null | End | To(node: Node)

  class Node {
    const key: string
    var next: Link

    constructor (key: string)
      ensures this.key == key && next == Null
    {
      this.key, next := key, Null;
    }

    /** hlist_hashed. */
    predicate OnList()
      reads this
    {
      next != Null
    }
  }

  /** What a node of a list points to. */
  function NextOf(c: seq<Node>, i: nat): Link
    requires i < |c|
  {
    if i + 1 < |c| then To(c[i + 1]) else End
  }

  /** The list behind `first`: the last node points to the sentinel, an empty one may as well. */
  ghost predicate Chain(first: Link, c: seq<Node>)
    reads set n | n in c
  {
    && (if c == [] then first == Null || first == End else first == To(c[0]))
    && forall i | 0 <= i < |c| :: c[i].next == NextOf(c, i)
  }

  lemma ChainNext(first: Link, c: seq<Node>, i: nat)
    requires Chain(first, c) && i < |c|
    ensures c[i].next == NextOf(c, i)
  {
  }

  lemma ChainFirst(first: Link, c: seq<Node>)
    requires Chain(first, c)
    ensures first.To? <==> c != []
    ensures c != [] ==> first == To(c[0])
  {
  }

  /** The nodes with a key, the newest first. */
  function WithKey(c: seq<Node>, key: string): seq<Node> {
    if c == [] then [] else (if c[0].key == key then [c[0]] else []) + WithKey(c[1..], key)
  }

  /** The lists of all buckets, one after the other. */
  function Joined(chains: seq<seq<Node>>): seq<Node> {
    if chains == [] then [] else chains[0] + Joined(chains[1..])
  }

  lemma WithKeyFrom(c: seq<Node>, i: nat, key: string)
    requires i < |c|
    ensures WithKey(c[i..], key) == if c[i].key == key then [c[i]] + WithKey(c[i + 1..], key) else WithKey(c[i + 1..], key)
  {
  }

  /** Every node is in the bucket of its own key, once. */
  ghost predicate Spread(chains: seq<seq<Node>>, hash: string -> nat) {
    && |chains| > 0
    && (forall b | 0 <= b < |chains| :: NoTwice(chains[b]))
    && (forall b, i | 0 <= b < |chains| && 0 <= i < |chains[b]| :: hash(chains[b][i].key) % |chains| == b)
  }

  ghost function Elements(chains: seq<seq<Node>>): set<Node> {
    set b, i | 0 <= b < |chains| && 0 <= i < |chains[b]| :: chains[b][i]
  }

  function Bucket(key: string, hash: string -> nat, n: nat): (b: nat)
    requires n > 0
    ensures b < n
  {
    hash(key) % n
  }

  lemma SpreadWith(chains: seq<seq<Node>>, hash: string -> nat, item: Node)
    requires Spread(chains, hash) && item !in Elements(chains)
    ensures
      var b := Bucket(item.key, hash, |chains|);
      var more := chains[b := [item] + chains[b]];
      && Spread(more, hash) && Elements(more) == Elements(chains) + {item}
      && WithKey(more[b], item.key) == [item] + WithKey(chains[b], item.key)
      && forall key | key != item.key :: WithKey(more[b], key) == WithKey(chains[b], key)
  {
    var b := Bucket(item.key, hash, |chains|);
    var c := [item] + chains[b];
    assert c[1..] == chains[b] && forall i | 0 <= i < |chains[b]| :: c[i + 1] == chains[b][i];
    var more := chains[b := c];
    forall b', i | 0 <= b' < |chains| && 0 <= i < |chains[b']|
      ensures chains[b'][i] in Elements(more)
    {
      assert chains[b'][i] == if b' == b then more[b'][i + 1] else more[b'][i];
    }
    assert more[b][0] == item;
  }

  lemma SpreadCut(chains: seq<seq<Node>>, hash: string -> nat, b: nat, i: nat)
    requires Spread(chains, hash) && b < |chains| && i < |chains[b]|
    ensures Spread(chains[b := Cut(chains[b], i)], hash)
    ensures Elements(chains[b := Cut(chains[b], i)]) == Elements(chains) - {chains[b][i]}
  {
    var c := chains[b];
    var d, less := Cut(c, i), chains[b := Cut(c, i)];
    assert forall j | 0 <= j < |d| :: d[j] == if j < i then c[j] else c[j + 1];
    forall b', j | 0 <= b' < |chains| && 0 <= j < |chains[b']| && chains[b'][j] != c[i]
      ensures chains[b'][j] in Elements(less)
    {
      assert chains[b'][j] == if b' == b then less[b'][if j < i then j else j - 1] else less[b'][j];
    }
  }

  lemma SpreadIs(chains: seq<seq<Node>>, hash: string -> nat)
    requires Spread(chains, hash)
    ensures |chains| > 0 && forall b | 0 <= b < |chains| :: NoTwice(chains[b])
    ensures forall b, x | 0 <= b < |chains| && x in chains[b] :: x in Elements(chains)
  {
  }

  lemma ChainsApart(chains: seq<seq<Node>>, hash: string -> nat, b: nat, b': nat)
    requires Spread(chains, hash) && b < |chains| && b' < |chains| && b != b'
    ensures forall x | x in chains[b] :: x !in chains[b']
  {
  }

  // ----- The table -----

  class Table {
    const hash: string -> nat
    const buckets: array<Link>
    var items: nat
    ghost var chains: seq<seq<Node>>

    ghost function Nodes(): set<Node>
      reads this
    {
      Elements(chains)
    }

    ghost predicate Valid()
      reads this, buckets, Nodes()
    {
      && buckets.Length == |chains| && Spread(chains, hash)
      && forall b | 0 <= b < |chains| :: Chain(buckets[b], chains[b])
    }

    /** The live items with a key, the newest first. */
    ghost function Stack(key: string): seq<Node>
      requires |chains| > 0
      reads this
    {
      WithKey(chains[Bucket(key, hash, |chains|)], key)
    }

    constructor (hash: string -> nat, size: nat)
      requires size > 0
      ensures Valid() && fresh(buckets) && this.hash == hash && buckets.Length == size && items == 0
      ensures forall key :: Stack(key) == []
    {
      this.hash, items := hash, 0;
      buckets := new Link[size](_ => Null);
      chains := seq(size, _ => []);
    }

    /** The newest live item with the key. */
    method Get(key: string) returns (item: Option<Node>)
      requires Valid()
      ensures item == if Stack(key) == [] then None else Some(Stack(key)[0])
    {
      assert |chains| > 0 && Chain(buckets[Bucket(key, hash, |chains|)], chains[Bucket(key, hash, |chains|)]);
      hide Spread, Elements, Chain;
      var b := Bucket(key, hash, buckets.Length);
      item := Find(buckets[b], chains[b], key);
    }

    /** The item becomes the newest with its key. */
    method Insert(item: Node)
      requires Valid() && item !in Nodes()
      modifies this, buckets, item
      ensures Valid() && Nodes() == old(Nodes()) + {item} && items == old(items) + 1 && item.OnList()
      ensures Stack(item.key) == [item] + old(Stack(item.key))
      ensures forall key | key != item.key :: Stack(key) == old(Stack(key))
    {
      var b := Bucket(item.key, hash, buckets.Length);
      ghost var c := chains[b];
      SpreadWith(chains, hash, item);
      SpreadIs(chains, hash);
      hide Spread, Elements, NoTwice;
      Push(buckets, b, item, c);
      items := items + 1;
      chains := chains[b := [item] + c];
    }

    /** The newest item with the key leaves the table and shows the next older one. */
    method Delete(key: string)
      requires Valid()
      modifies this, buckets, Nodes()
      ensures Valid() && items == old(items)
      ensures old(Stack(key)) == [] ==> Nodes() == old(Nodes())
      ensures old(Stack(key)) != [] ==>
                var item := old(Stack(key))[0];
                Nodes() == old(Nodes()) - {item} && !item.OnList() && Stack(key) == old(Stack(key))[1..]
      ensures forall other | other != key || old(Stack(key)) == [] :: Stack(other) == old(Stack(other))
    {
      hide Spread, Elements, Chain, NoTwice;
      var item := Get(key);
      if item.None? { return; }
      SpreadIs(chains, hash);
      var b := Bucket(key, hash, buckets.Length);
      ghost var c, i := chains[b], FirstWithKey(chains[b], key);
      CutFirst(c, key);
      SpreadCut(chains, hash, b, i);
      forall b' | 0 <= b' < |chains| && b' != b
        ensures forall x | x in c :: x !in chains[b']
      {
        ChainsApart(chains, hash, b, b');
      }
      Unlink(buckets, b, item.value, c, i);
      chains := chains[b := Cut(c, i)];
    }

    /** The items are visited bucket by bucket, up to one that is answered by an error. */
    method ForEach(answer: Node -> int, context: bool) returns (visited: seq<Node>, r: int)
      requires Valid()
      ensures (visited, r) == Visits(Joined(chains), answer, context)
    {
      assert forall b | 0 <= b < |chains| :: Chain(buckets[b], chains[b]);
      hide Spread, Elements, Chain, Onward, Visits;
      visited, r := [], 0;
      OnwardFirst(Joined(chains), answer, context);
      assert chains[0..] == chains;
      for b := 0 to buckets.Length
        invariant r == 0
        invariant Visits(Joined(chains), answer, context) == Onward(visited, Joined(chains[b..]), answer, context)
      {
        JoinedFrom(chains, b);
        OnwardBoth(visited, chains[b], Joined(chains[b + 1..]), answer, context);
        var now;
        now, r := VisitBucket(buckets[b], chains[b], answer, context);
        visited := visited + now;
        if r != 0 { return; }
      }
      JoinedNone(chains);
      OnwardNone(visited, answer, context);
    }
  }

  lemma JoinedFrom(chains: seq<seq<Node>>, b: nat)
    requires b < |chains|
    ensures Joined(chains[b..]) == chains[b] + Joined(chains[b + 1..])
  {
  }

  lemma JoinedNone(chains: seq<seq<Node>>)
    ensures Joined(chains[|chains|..]) == []
  {
  }

  // ----- Walking over a list -----

  /** The lists have no node in common. */
  ghost predicate Apart(chains: seq<seq<Node>>) {
    && (forall b | 0 <= b < |chains| :: NoTwice(chains[b]))
    && (forall a, b, x | 0 <= a < b < |chains| && x in chains[a] :: x !in chains[b])
  }

  lemma {:induction false} JoinedOnce(chains: seq<seq<Node>>)
    requires Apart(chains)
    ensures NoTwice(Joined(chains))
    ensures forall x | x in Joined(chains) :: exists b :: 0 <= b < |chains| && x in chains[b]
    ensures forall b, x | 0 <= b < |chains| && x in chains[b] :: x in Joined(chains)
  {
    if chains != [] {
      var rest := chains[1..];
      assert forall b | 0 <= b < |rest| :: rest[b] == chains[b + 1];
      JoinedOnce(rest);
      assert forall x | x in Joined(rest) :: x !in chains[0];
      TwoOnce(chains[0], Joined(rest));
    }
  }

  lemma TwoOnce(a: seq<Node>, b: seq<Node>)
    requires NoTwice(a) && NoTwice(b) && forall x | x in b :: x !in a
    ensures NoTwice(a + b)
  {
    var s := a + b;
    forall i, j | 0 <= i < j < |s|
      ensures s[i] != s[j]
    {
      if i < |a| <= j { assert s[j] == b[j - |a|] && s[j] in b && s[i] in a; }
    }
  }

  /** A visit of a whole table, when no error ends it: every live item, once. */
  lemma VisitsEachOnce(chains: seq<seq<Node>>, hash: string -> nat, answer: Node -> int, context: bool)
    requires Spread(chains, hash)
    ensures !context || (forall n | n in Elements(chains) :: answer(n) == 0) ==>
              Visits(Joined(chains), answer, context) == (Joined(chains), 0)
    ensures NoTwice(Joined(chains)) && forall n :: n in Joined(chains) <==> n in Elements(chains)
  {
    assert Apart(chains);
    JoinedOnce(chains);
    forall n | n in Joined(chains)
      ensures n in Elements(chains)
    {
      var b :| 0 <= b < |chains| && n in chains[b];
    }
    var all := Joined(chains);
    if !context || forall n | n in Elements(chains) :: answer(n) == 0 {
      assert forall i | 0 <= i < |all| :: all[i] in all;
      VisitsAll(all, answer, context);
    }
  }

  /** hlist_add_head. */
  method Push(buckets: array<Link>, b: nat, item: Node, ghost c: seq<Node>)
    requires b < buckets.Length && Chain(buckets[b], c) && item !in c
    modifies buckets, item
    ensures Chain(buckets[b], [item] + c) && item.OnList()
    ensures forall j | 0 <= j < buckets.Length && j != b :: buckets[j] == old(buckets[j])
  {
    hide NextOf;
    PushNext(c, item);
    ChainFirst(buckets[b], c);
    item.next := if buckets[b] == Null then End else buckets[b];
    buckets[b] := To(item);
  }

  lemma PushNext(c: seq<Node>, item: Node)
    ensures
      var d := [item] + c;
      NextOf(d, 0) == (if c == [] then End else To(c[0])) && forall j | 0 <= j < |c| :: NextOf(d, j + 1) == NextOf(c, j) && d[j + 1] == c[j]
  {
  }

  method Find(first: Link, ghost c: seq<Node>, key: string) returns (item: Option<Node>)
    requires Chain(first, c)
    ensures item == if WithKey(c, key) == [] then None else Some(WithKey(c, key)[0])
  {
    hide Chain;
    ChainFirst(first, c);
    assert c[0..] == c;
    ghost var i := 0;
    var pos := first;
    while pos.To?
      invariant i <= |c| && (pos.To? <==> i < |c|) && (i < |c| ==> pos == To(c[i]))
      invariant WithKey(c[i..], key) == WithKey(c, key)
      decreases |c| - i
    {
      ChainNext(first, c, i);
      WithKeyFrom(c, i, key);
      if pos.node.key == key { return Some(pos.node); }
      pos, i := pos.node.next, i + 1;
    }
    return None;
  }

  /** Visiting some items: those visited, and the answer that ended it. */
  function Visits(items: seq<Node>, answer: Node -> int, context: bool): (seq<Node>, int) {
    if items == [] then ([], 0)
    else if answer(items[0]) != 0 && context then ([items[0]], answer(items[0]))
    else var (more, r) := Visits(items[1..], answer, context); ([items[0]] + more, r)
  }

  function Onward(visited: seq<Node>, items: seq<Node>, answer: Node -> int, context: bool): (seq<Node>, int) {
    var (more, r) := Visits(items, answer, context);
    (visited + more, r)
  }

  lemma OnwardFirst(items: seq<Node>, answer: Node -> int, context: bool)
    ensures Onward([], items, answer, context) == Visits(items, answer, context)
  {
    var all := Visits(items, answer, context).0;
    assert [] + all == all;
  }

  lemma OnwardNone(visited: seq<Node>, answer: Node -> int, context: bool)
    ensures Onward(visited, [], answer, context) == (visited, 0)
  {
    assert Visits([], answer, context) == ([], 0) && visited + [] == visited;
  }

  lemma OnwardNext(visited: seq<Node>, c: seq<Node>, i: nat, answer: Node -> int, context: bool)
    requires i < |c|
    ensures Onward(visited, c[i..], answer, context) ==
            if answer(c[i]) != 0 && context then (visited + [c[i]], answer(c[i]))
            else Onward(visited + [c[i]], c[i + 1..], answer, context)
  {
    assert c[i..][1..] == c[i + 1..];
    var more := Visits(c[i + 1..], answer, context).0;
    assert visited + ([c[i]] + more) == visited + [c[i]] + more;
  }

  lemma {:induction false} VisitsOfBoth(a: seq<Node>, b: seq<Node>, answer: Node -> int, context: bool)
    ensures
      var (now, r) := Visits(a, answer, context);
      Visits(a + b, answer, context) == if r != 0 then (now, r) else Onward(now, b, answer, context)
  {
    if a == [] {
      assert a + b == b;
      OnwardFirst(b, answer, context);
    } else {
      assert (a + b)[1..] == a[1..] + b;
      VisitsOfBoth(a[1..], b, answer, context);
      var now, more := Visits(a[1..], answer, context).0, Visits(b, answer, context).0;
      assert [a[0]] + (now + more) == [a[0]] + now + more;
    }
  }

  lemma OnwardBoth(visited: seq<Node>, a: seq<Node>, b: seq<Node>, answer: Node -> int, context: bool)
    ensures
      var (now, r) := Visits(a, answer, context);
      Onward(visited, a + b, answer, context) ==
        if r != 0 then (visited + now, r) else Onward(visited + now, b, answer, context)
  {
    VisitsOfBoth(a, b, answer, context);
    var now, more := Visits(a, answer, context).0, Visits(b, answer, context).0;
    assert visited + (now + more) == visited + now + more;
  }

  method VisitBucket(first: Link, ghost c: seq<Node>, answer: Node -> int, context: bool)
    returns (visited: seq<Node>, r: int)
    requires Chain(first, c)
    ensures (visited, r) == Visits(c, answer, context)
  {
    hide Chain;
    ChainFirst(first, c);
    OnwardFirst(c, answer, context);
    assert c[0..] == c;
    ghost var i := 0;
    var pos := first;
    visited, r := [], 0;
    while pos.To?
      invariant i <= |c| && (pos.To? <==> i < |c|) && (i < |c| ==> pos == To(c[i]))
      invariant Visits(c, answer, context) == Onward(visited, c[i..], answer, context)
      decreases |c| - i
    {
      ChainNext(first, c, i);
      OnwardNext(visited, c, i, answer, context);
      var next := pos.node.next;
      visited := visited + [pos.node];
      if answer(pos.node) != 0 && context { return visited, answer(pos.node); }
      pos, i := next, i + 1;
    }
    assert c[i..] == [];
    OnwardNone(visited, answer, context);
  }

  /** A visit of everything: each live item once. */
  lemma {:induction false} VisitsAll(items: seq<Node>, answer: Node -> int, context: bool)
    requires !context || forall i | 0 <= i < |items| :: answer(items[i]) == 0
    ensures Visits(items, answer, context) == (items, 0)
  {
    if items != [] {
      VisitsAll(items[1..], answer, context);
      assert [items[0]] + items[1..] == items;
    }
  }

  /** The position of the newest node with a key. */
  function FirstWithKey(c: seq<Node>, key: string): (i: nat)
    requires WithKey(c, key) != []
    ensures i < |c| && c[i] == WithKey(c, key)[0]
  {
    if c[0].key == key then 0 else 1 + FirstWithKey(c[1..], key)
  }

  function Cut(c: seq<Node>, i: nat): (d: seq<Node>)
    requires i < |c|
    ensures |d| == |c| - 1
  {
    c[..i] + c[i + 1..]
  }

  lemma {:induction false} CutFirst(c: seq<Node>, key: string)
    requires WithKey(c, key) != []
    ensures c[FirstWithKey(c, key)].key == key && WithKey(Cut(c, FirstWithKey(c, key)), key) == WithKey(c, key)[1..]
    ensures forall other | other != key :: WithKey(Cut(c, FirstWithKey(c, key)), other) == WithKey(c, other)
  {
    var i := FirstWithKey(c, key);
    if c[0].key == key {
      assert Cut(c, 0) == c[1..];
      assert ([c[0]] + WithKey(c[1..], key))[1..] == WithKey(c[1..], key);
      assert forall other | other != key :: WithKey(c, other) == [] + WithKey(c[1..], other);
    } else {
      CutFirst(c[1..], key);
      assert Cut(c, i)[0] == c[0] && Cut(c, i)[1..] == Cut(c[1..], i - 1);
    }
  }

  /** hlist_del: walks to the link that points to the node, and past the node. */
  method Unlink(buckets: array<Link>, b: nat, n: Node, ghost c: seq<Node>, ghost i: nat)
    requires b < buckets.Length && Chain(buckets[b], c) && NoTwice(c) && i < |c| && c[i] == n
    modifies buckets, set x | x in c
    ensures Chain(buckets[b], Cut(c, i)) && n.next == Null
    ensures forall j | 0 <= j < buckets.Length && j != b :: buckets[j] == old(buckets[j])
  {
    ghost var first := buckets[b];
    ChainFirst(first, c);
    var before: Option<Node>, at := None, buckets[b];
    ghost var k := 0;
    while at != Null && at != End && at != To(n)
      invariant Chain(first, c) && k <= i && at == To(c[k]) && before == if k == 0 then None else Some(c[k - 1])
      decreases i - k
      modifies {}
    {
      ChainNext(first, c, k);
      before, at, k := Some(at.node), at.node.next, k + 1;
    }
    assert k == i;
    Relink(buckets, b, n, before, c, i);
  }

  /** __hlist_del: the link before the node gets what the node points to. */
  method Relink(buckets: array<Link>, b: nat, n: Node, before: Option<Node>, ghost c: seq<Node>, ghost i: nat)
    requires b < buckets.Length && Chain(buckets[b], c) && NoTwice(c) && i < |c| && c[i] == n
    requires before == if i == 0 then None else Some(c[i - 1])
    modifies buckets, set x | x in c
    ensures Chain(buckets[b], Cut(c, i)) && n.next == Null
    ensures forall j | 0 <= j < buckets.Length && j != b :: buckets[j] == old(buckets[j])
  {
    hide NextOf, Cut;
    ghost var d := Cut(c, i);
    CutNext(c, i);
    ChainNext(buckets[b], c, i);
    ChainFirst(buckets[b], c);
    assert forall j, k | 0 <= j < k < |c| :: c[j] != c[k];
    if before.None? {
      buckets[b] := n.next;
      assert buckets[b] == NextOf(c, 0);
    } else {
      before.value.next := n.next;
      assert buckets[b] == To(c[0]) && d[0] == c[0];
    }
    n.next := Null;
    assert forall j | i < j < |c| || 0 <= j < i - 1 :: c[j].next == NextOf(c, j);
    assert i > 0 ==> c[i - 1].next == NextOf(c, i);
    assert forall j | 0 <= j < |d| :: d[j].next == NextOf(d, j);
    assert if d == [] then buckets[b] == End else buckets[b] == To(d[0]);
  }

  lemma CutNext(c: seq<Node>, i: nat)
    requires i < |c|
    ensures forall j | 0 <= j < i :: Cut(c, i)[j] == c[j]
    ensures forall j | i <= j < |c| - 1 :: Cut(c, i)[j] == c[j + 1] && NextOf(Cut(c, i), j) == NextOf(c, j + 1)
    ensures forall j | 0 <= j < i - 1 :: NextOf(Cut(c, i), j) == NextOf(c, j)
    ensures i > 0 ==> NextOf(Cut(c, i), i - 1) == NextOf(c, i)
    ensures i == 0 ==> NextOf(c, i) == if |c| == 1 then End else To(Cut(c, i)[0])
  {
  }
}
