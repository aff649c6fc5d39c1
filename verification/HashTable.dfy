/**
 The resizing chained hash table of siege-4.1.7/src/hash.c. Keys are C strings
 and values byte strings; both are copied on insertion.
 */
module HashTable {
  import opened Options
  import opened Powers

  type Key = seq<bv8>
  type Value = seq<bv8>

  const FNV1_32_INIT: bv32 := 2166136261

  function Total(h: bv32, a: bv32, b: bv32, c: bv32, d: bv32, e: bv32): bv32 {
    h + (a + b + c + d + e)
  }

  /** Line 396: a multiplication spelled out in shifts. */
  function Spread(h: bv32): bv32 {
    Total(h, h << 1, h << 4, h << 7, h << 8, h << 24)
  }

  function Mix(hval: bv32, octet: bv8): bv32 {
    Spread(hval ^ (octet as bv32))
  }

  /** fnv_32_buf */
  function Fnv(s: seq<bv8>, hval: bv32): bv32 {
    if s == [] then hval else Fnv(s[1..], Mix(hval, s[0]))
  }

  /** The shifts multiply by the 32-bit FNV prime, modulo 2^32. */
  lemma SpreadMultiplies(h: bv32)
    ensures Spread(h) == h * 0x01000193
  {
    hide Total;
    ShiftsMultiply(h);
    TotalMultiplies(h);
  }

  lemma ShiftsMultiply(h: bv32)
    ensures h << 1 == h * 2 && h << 4 == h * 16 && h << 7 == h * 128
    ensures h << 8 == h * 256 && h << 24 == h * 0x1000000
  {
  }

  lemma TotalMultiplies(h: bv32)
    ensures Total(h, h * 2, h * 16, h * 128, h * 256, h * 0x1000000) == h * 0x01000193
  {
  }

  /** __genkey */
  function GenKey(size: nat, key: Key): (x: nat)
    requires size > 0
    ensures x < size
  {
    (Fnv(key, FNV1_32_INIT) as nat) % size
  }

  class Node {
    const key: Key
    const val: Value
    var next: Node?

    constructor (key: Key, val: Value, next: Node?)
      ensures this.key == key && this.val == val && this.next == next
    {
      this.key, this.val, this.next := key, val, next;
    }
  }

  /** The nodes reached from `head`, in order. */
  ghost predicate Linked(head: Node?, chain: seq<Node>)
    reads chain
  {
    if chain == [] then head == null else head == chain[0] && Linked(chain[0].next, chain[1..])
  }

  /** What hash_reset makes of a requested size: two, doubled as often as needed. */
  function Grown(from: nat, size: int): (n: nat)
    requires from > 0
    ensures n >= from && n >= size
    decreases size - from
  {
    if from < size then Grown(2 * from, size) else from
  }

  /** The nodes and the map hold the same entries, one node to a key. */
  ghost predicate Describes(nodes: set<Node>, M: map<Key, Value>) {
    && (forall n, n' :: n in nodes && n' in nodes && n.key == n'.key ==> n == n')
    && (forall n :: n in nodes ==> n.key in M && M[n.key] == n.val)
    && (forall k :: k in M ==> exists n :: n in nodes && n.key == k)
  }

  lemma DescribesInsert(nodes: set<Node>, M: map<Key, Value>, node: Node)
    requires Describes(nodes, M) && node.key !in M
    ensures node !in nodes && Describes(nodes + {node}, M[node.key := node.val])
  {
    var nodes', M' := nodes + {node}, M[node.key := node.val];
    forall k | k in M'
      ensures exists n :: n in nodes' && n.key == k
    {
      if k == node.key {
        assert node in nodes';
      } else {
        var n :| n in nodes && n.key == k;
        assert n in nodes';
      }
    }
  }

  class Hash {
    var size: nat
    var entries: nat
    var table: array<Node?>

    /** The contents as a map, the nodes, and the chain in every bucket. */
    ghost var M: map<Key, Value>
    ghost var nodes: set<Node>
    ghost var chains: seq<seq<Node>>

    /** Every bucket holds a chain of nodes that belong there, and every one of `nodes` is in its chain, once. */
    ghost predicate ShapeOf(nodes: set<Node>)
      reads `size, `table, `chains, table, nodes
    {
      && table.Length == size == |chains| && size >= 2
      && (forall x, i :: 0 <= x < size && 0 <= i < |chains[x]| ==>
            chains[x][i] in nodes && GenKey(size, chains[x][i].key) == x)
      && (forall n :: n in nodes ==> n in chains[GenKey(size, n.key)])
      && (forall x, i, j :: 0 <= x < size && 0 <= i < j < |chains[x]| ==> chains[x][i] != chains[x][j])
      && (forall x :: 0 <= x < size ==> Linked(table[x], chains[x]))
    }

    ghost predicate Shape()
      reads `size, `table, `chains, `nodes, table, nodes
    {
      ShapeOf(nodes)
    }

    ghost predicate Valid()
      reads this, table, nodes
    {
      size >= 2 && Shape() && Describes(nodes, M) && entries == |nodes| && entries <= size / 4
    }

    /** new_hash */
    constructor ()
      ensures Valid() && M == map[] && nodes == {} && fresh(table) && size == 10240
    {
      size, entries := 10240, 0;
      table := new Node?[10240](_ => null);
      M, nodes := map[], {};
      chains := seq(10240, _ => []);
    }

    /** The walk along a chain that hash_get and __lookup share. */
    method Find(key: Key) returns (node: Node?)
      requires Valid()
      ensures node == null ==> key !in M
      ensures node != null ==> node in nodes && node.key == key && key in M && M[key] == node.val
    {
      hide Fnv;
      var x := GenKey(size, key);
      ghost var rest := chains[x];
      node := table[x];
      while node != null
        invariant Linked(node, rest)
        invariant forall n :: n in rest ==> n in nodes
        invariant forall n :: n in chains[x] && n.key == key ==> n in rest
        decreases |rest|
      {
        if node.key == key {
          return;
        }
        assert node == rest[0] && forall n :: n in rest ==> n == node || n in rest[1..];
        node, rest := node.next, rest[1..];
      }
    }

    /** __lookup, hash_contains */
    method Lookup(key: Key) returns (found: bool)
      requires Valid()
      ensures found <==> key in M
    {
      var node := Find(key);
      found := node != null;
    }

    /** hash_get */
    method Get(key: Key) returns (val: Option<Value>)
      requires Valid()
      ensures val == if key in M then Some(M[key]) else None
    {
      var node := Find(key);
      val := if node == null then None else Some(node.val);
    }

    /** hash_reset: an empty table; the old one is forgotten. */
    method Reset(n: int)
      modifies this`size, this`entries, this`table
      ensures size == Grown(2, n) && entries == 0 && table.Length == size && fresh(table)
      ensures forall x :: 0 <= x < size ==> table[x] == null
    {
      var s := 2;
      while s < n
        invariant s > 0 && Grown(s, n) == Grown(2, n)
      {
        s := s * 2;
      }
      size := s;
      entries := 0;
      table := new Node?[size](_ => null);
    }

    /** A node moves to the head of the bucket its key belongs to. */
    method Push(node: Node, ghost done: set<Node>)
      requires ShapeOf(done) && node !in done
      modifies this`chains, this`entries, table, node`next
      ensures ShapeOf(done + {node}) && entries == old(entries) + 1
    {
      hide GenKey, Fnv;
      var x := GenKey(size, node.key);
      node.next := table[x];
      table[x] := node;
      entries := entries + 1;
      ghost var was := chains[x];
      chains := chains[x := [node] + was];
      assert forall i :: 0 < i < |chains[x]| ==> chains[x][i] == was[i - 1];
      assert node in chains[x];
      assert forall n :: n in was ==> n in chains[x];
    }

    /** Lines 134-142: a new entry. */
    method Insert(key: Key, val: Value)
      requires Valid() && key !in M && entries < size / 4
      modifies this, table
      ensures Valid() && M == old(M)[key := val] && size == old(size) && table == old(table)
      ensures fresh(nodes - old(nodes))
    {
      hide ShapeOf, Describes;
      var node := new Node(key, val, null);
      DescribesInsert(nodes, M, node);
      Push(node, nodes);
      nodes := nodes + {node};
      M := M[key := val];
    }

    /** The new, empty table of __resize. */
    method StartOver(n: int)
      modifies this`size, this`entries, this`table, this`chains
      ensures size == Grown(2, n) && entries == 0 && fresh(table) && ShapeOf({})
    {
      hide GenKey, Fnv;
      Reset(n);
      chains := seq(size, _ => []);
    }

    lemma Positions()
      requires Shape()
      ensures PlacedOnce(chains) && |chains| == size == table.Length && size >= 2
      ensures forall y :: 0 <= y < size ==> Linked(table[y], chains[y])
      ensures forall y :: 0 <= y < size ==> Elements(chains[y]) <= nodes
      ensures forall n :: n in nodes ==> exists y, j :: 0 <= y < size && 0 <= j < |chains[y]| && chains[y][j] == n
    {
      hide GenKey, Fnv;
      forall n | n in nodes
        ensures exists y, j :: 0 <= y < size && 0 <= j < |chains[y]| && chains[y][j] == n
      {
        var y := GenKey(size, n.key);
        var j :| 0 <= j < |chains[y]| && chains[y][j] == n;
      }
    }

    /** Lines 338-346: all nodes of one old chain move. */
    method MoveChain(head: Node?, ghost chain: seq<Node>, ghost done: set<Node>)
      requires ShapeOf(done) && Linked(head, chain)
      requires Distinct(chain) && forall n :: n in chain ==> n !in done
      modifies this`chains, this`entries, table, chain
      ensures ShapeOf(done + Elements(chain)) && entries == old(entries) + |chain|
    {
      hide ShapeOf, GenKey, Linked, Elements;
      ghost var all, i := done, 0;
      var lastNode := head;
      Suffixes(chain, 0);
      assert all == done + Elements(chain[..0]) && chain[0..] == chain;
      while lastNode != null
        invariant 0 <= i <= |chain| && all == done + Elements(chain[..i])
        invariant ShapeOf(all) && entries == old(entries) + i
        invariant Linked(lastNode, chain[i..])
        decreases |chain| - i
      {
        LinkedUnfolds(lastNode, chain[i..]);
        Suffixes(chain, i);
        var tmp := lastNode;
        lastNode := lastNode.next;
        Push(tmp, all);
        all, i := all + {tmp}, i + 1;
        LinkedUnfolds(lastNode, chain[i..]);
      }
      LinkedUnfolds(lastNode, chain[i..]);
      assert chain[..i] == chain;
    }

    /** __resize: every node moves to a table at least twice as large. */
    method Resize()
      requires Valid()
      modifies this, nodes
      ensures Valid() && M == old(M) && nodes == old(nodes) && fresh(table)
      ensures size == Grown(2, 2 * old(size)) && entries < size / 4
    {
      hide ShapeOf, Describes, PlacedOnce, MovedBefore, Linked, Elements, Grown;
      Positions();
      GrownHasRoom(size, entries);
      var oldSize, lastTable := size, table;
      ghost var oc := chains;
      StartOver(oldSize * 2);
      ghost var done: set<Node> := {};
      NoneMoved(oc);
      var x := 0;
      while x < oldSize
        invariant x <= oldSize && fresh(table) && ShapeOf(done) && entries == |done| && done <= nodes
        invariant size == Grown(2, 2 * oldSize) && M == old(M) && nodes == old(nodes)
        invariant MovedBefore(oc, done, x)
        invariant forall y :: x <= y < oldSize ==> Linked(lastTable[y], oc[y])
      {
        OneMoreMoved(oc, done, x);
        MoveChain(lastTable[x], oc[x], done);
        done := done + Elements(oc[x]);
        x := x + 1;
      }
      AllMoved(oc, done, nodes);
    }

    /** hash_nadd: the first value written for a key stays. */
    method Nadd(key: Key, val: Value)
      requires Valid()
      modifies this, table, nodes
      ensures Valid() && (table == old(table) || fresh(table)) && fresh(nodes - old(nodes))
      ensures (M, size) == AfterAdd(old(M), old(size), key, val)
    {
      hide ShapeOf, Describes, Grown;
      EntriesCount();
      var found := Lookup(key);
      if found {
        return;
      }
      if entries >= size / 4 {
        Resize();
      }
      Insert(key, val);
    }

    /** The field `entries` is the number of entries. */
    lemma EntriesCount()
      requires Valid()
      ensures entries == |M|
    {
      hide ShapeOf;
      ghost var keys := set n | n in nodes :: n.key;
      KeysOfNodes(nodes);
      assert keys == M.Keys;
    }

    /** Lines 190-200: the loop of hash_remove counts every node of the chain out. */
    method FreeChain(head: Node?, ghost chain: seq<Node>)
      requires Linked(head, chain) && |chain| <= entries
      modifies this`entries
      ensures entries == old(entries) - |chain|
    {
      hide Linked, Elements;
      var n1 := head;
      ghost var i := 0;
      assert chain[0..] == chain;
      while n1 != null
        invariant 0 <= i <= |chain| && Linked(n1, chain[i..]) && entries == old(entries) - i
        decreases |chain| - i
      {
        LinkedUnfolds(n1, chain[i..]);
        Suffixes(chain, i);
        var n2 := n1.next;
        entries := entries - 1;
        n1, i := n2, i + 1;
      }
      LinkedUnfolds(n1, chain[i..]);
    }

    /** hash_remove: the loop frees every node of the key's bucket. */
    method Remove(key: Key)
      requires Valid()
      modifies this, table
      ensures Valid() && table == old(table) && nodes <= old(nodes)
      ensures (M, size) == (AfterRemove(old(M), old(size), key), old(size))
    {
      hide ShapeOf, Fnv, Linked, Elements, Describes;
      var found := Lookup(key);
      if !found {
        return;
      }
      var x := GenKey(size, key);
      Bucket(x);
      ghost var chain := chains[x];
      ElementsCount(chain, nodes);
      FreeChain(table[x], chain);
      DropBucket(x);
    }

    /** What the chain of bucket x holds. */
    lemma Bucket(x: nat)
      requires Shape() && x < size
      ensures |chains| == table.Length == size && Linked(table[x], chains[x]) && Elements(chains[x]) <= nodes
      ensures Distinct(chains[x])
      ensures forall n :: n in nodes ==> (n in Elements(chains[x]) <==> GenKey(size, n.key) == x)
    {
    }

    /** Line 201, and the ghost state after it. */
    method DropBucket(x: nat)
      requires Shape() && Describes(nodes, M) && x < size && |chains| == size
      modifies this`M, this`nodes, this`chains, table
      ensures Shape() && Describes(nodes, M) && nodes == old(nodes) - Elements(old(chains)[x])
      ensures M == Dropped(old(M), size, x)
    {
      hide Fnv, Linked, Elements, Describes;
      Bucket(x);
      DescribesDrop(nodes, M, Elements(chains[x]), size, x);
      table[x] := null;
      nodes := nodes - Elements(chains[x]);
      chains := chains[x := []];
      M := Dropped(M, size, x);
      EmptyLinked();
    }

    /** Line 240-246: the keys of one chain are written behind those already there. */
    method KeysOfChain(keys: array<Key>, from: nat, x: nat, ghost seen: seq<Node>)
      returns (i: nat, ghost seen': seq<Node>)
      requires Valid() && x < size && keys.Length == entries && |seen| == from <= entries
      requires forall j :: 0 <= j < from ==> keys[j] == seen[j].key
      requires Distinct(seen) && SeenBefore(nodes, size, seen, x)
      modifies keys
      ensures Valid() && |seen'| == i <= entries && forall j :: 0 <= j < i ==> keys[j] == seen'[j].key
      ensures Distinct(seen') && SeenBefore(nodes, size, seen', x + 1)
    {
      hide ShapeOf, GenKey, Linked, Elements, Describes;
      Bucket(x);
      ghost var chain, k := chains[x], 0;
      Suffixes(chain, 0);
      assert chain[0..] == chain && seen + chain[..0] == seen;
      var node := table[x];
      i := from;
      while node != null
        invariant 0 <= k <= |chain| && i == from + k <= entries && Linked(node, chain[k..])
        invariant keys.Length == entries == |nodes| && Elements(chain) <= nodes
        invariant forall j :: 0 <= j < i ==> keys[j] == (seen + chain[..k])[j].key
        decreases |chain| - k
      {
        LinkedUnfolds(node, chain[k..]);
        Suffixes(chain, k);
        SeenFits(nodes, size, seen, x, chain);
        keys[i] := node.key;
        i, k := i + 1, k + 1;
        node := node.next;
      }
      LinkedUnfolds(node, chain[k..]);
      seen' := seen + chain;
      assert chain[..k] == chain;
      SeenFits(nodes, size, seen, x, chain);
    }

    /** hash_get_keys: every key once. */
    method GetKeys() returns (result: seq<Key>)
      requires Valid()
      ensures |result| == |M| && (forall k :: k in result <==> k in M)
      ensures forall i, j :: 0 <= i < j < |result| ==> result[i] != result[j]
    {
      hide ShapeOf, GenKey;
      EntriesCount();
      if entries == 0 {
        return [];
      }
      var keys := new Key[entries];
      var i := 0;
      ghost var seen: seq<Node> := [];
      for x := 0 to size
        invariant Valid() && M == old(M) && nodes == old(nodes) && size == old(size) && entries == old(entries)
        invariant |seen| == i <= entries && forall j :: 0 <= j < i ==> keys[j] == seen[j].key
        invariant Distinct(seen) && SeenBefore(nodes, size, seen, x)
      {
        i, seen := KeysOfChain(keys, i, x, seen);
      }
      AllSeen(nodes, size, seen);
      result := keys[..];
      assert forall k :: k in M ==> exists n :: n in seen && n.key == k;
    }
  }

  ghost predicate Distinct(chain: seq<Node>) {
    forall i, j :: 0 <= i < j < |chain| ==> chain[i] != chain[j]
  }

  /** `seen` lists the nodes of buckets 0..x-1. */
  ghost predicate SeenBefore(nodes: set<Node>, size: nat, seen: seq<Node>, x: nat)
    requires size > 0
  {
    && (forall n :: n in seen ==> n in nodes)
    && (forall n :: n in nodes ==> (n in seen <==> GenKey(size, n.key) < x))
  }

  lemma SeenFits(nodes: set<Node>, size: nat, seen: seq<Node>, x: nat, chain: seq<Node>)
    requires size > 0 && SeenBefore(nodes, size, seen, x) && Distinct(seen) && Distinct(chain)
    requires Elements(chain) <= nodes
    requires forall n :: n in nodes ==> (n in Elements(chain) <==> GenKey(size, n.key) == x)
    ensures SeenBefore(nodes, size, seen + chain, x + 1) && Distinct(seen + chain)
    ensures |seen| + |chain| <= |nodes|
  {
    hide GenKey;
    assert forall n :: n in chain ==> n in Elements(chain);
    forall i, j | 0 <= i < |seen| && 0 <= j < |chain|
      ensures seen[i] != chain[j]
    {
      assert seen[i] in seen && chain[j] in chain;
    }
    assert Elements(seen + chain) <= nodes;
    ElementsCount(seen + chain, nodes);
  }

  lemma AllSeen(nodes: set<Node>, size: nat, seen: seq<Node>)
    requires size > 0 && SeenBefore(nodes, size, seen, size) && Distinct(seen)
    ensures |seen| == |nodes| && forall n :: n in nodes <==> n in seen
  {
    ElementsCount(seen, nodes);
    assert Elements(seen) == nodes;
  }

  /** The table as a map and a size: what hash_nadd and hash_remove do to it. */
  function AfterAdd(m: map<Key, Value>, size: nat, key: Key, val: Value): (map<Key, Value>, nat)
    requires size > 0
  {
    if key in m then (m, size)
    else (m[key := val], if |m| >= size / 4 then Grown(2, 2 * size) else size)
  }

  /** Without the keys of bucket x. */
  ghost function Dropped(m: map<Key, Value>, size: nat, x: nat): map<Key, Value>
    requires size > 0
  {
    map k | k in m && GenKey(size, k) != x :: m[k]
  }

  lemma DescribesDrop(nodes: set<Node>, M: map<Key, Value>, bucket: set<Node>, size: nat, x: nat)
    requires size > 0 && Describes(nodes, M)
    requires forall n :: n in nodes ==> (n in bucket <==> GenKey(size, n.key) == x)
    ensures Describes(nodes - bucket, Dropped(M, size, x))
  {
    hide GenKey;
    forall k | k in Dropped(M, size, x)
      ensures exists n :: n in nodes - bucket && n.key == k
    {
      var n :| n in nodes && n.key == k;
      assert n in nodes - bucket;
    }
  }

  lemma EmptyLinked()
    ensures Linked(null, [])
  {
  }

  ghost function AfterRemove(m: map<Key, Value>, size: nat, key: Key): map<Key, Value>
    requires size > 0
  {
    if key in m then Dropped(m, size, GenKey(size, key)) else m
  }

  lemma {:induction false} KeysOfNodes(nodes: set<Node>)
    requires forall n, n' :: n in nodes && n' in nodes && n.key == n'.key ==> n == n'
    ensures |set n | n in nodes :: n.key| == |nodes|
  {
    if nodes != {} {
      var n :| n in nodes;
      var rest := nodes - {n};
      KeysOfNodes(rest);
      var keys := set n | n in nodes :: n.key;
      assert keys == (set n | n in rest :: n.key) + {n.key};
    }
  }

  lemma LinkedUnfolds(head: Node?, chain: seq<Node>)
    requires Linked(head, chain)
    ensures head == null <==> chain == []
    ensures chain != [] ==> head == chain[0] && Linked(head.next, chain[1..])
  {
  }

  lemma Suffixes(chain: seq<Node>, i: nat)
    requires i <= |chain|
    ensures Elements(chain[..0]) == {}
    ensures i < |chain| ==>
              && chain[i..][0] == chain[i] && chain[i..][1..] == chain[i + 1..] && chain[i] in chain
              && Elements(chain[..i + 1]) == Elements(chain[..i]) + {chain[i]}
              && (forall n :: n in Elements(chain[..i]) ==> n in chain[..i])
  {
    if i < |chain| {
      assert chain[..i + 1] == chain[..i] + [chain[i]];
    }
  }

  /** A chain of distinct nodes has as many as it is long. */
  lemma ElementsCount(chain: seq<Node>, nodes: set<Node>)
    requires Distinct(chain) && Elements(chain) <= nodes
    ensures |Elements(chain)| == |chain| <= |nodes| && |nodes - Elements(chain)| == |nodes| - |chain|
  {
    ElementsSize(chain);
    hide Distinct, Elements;
    SubsetSize(Elements(chain), nodes);
  }

  lemma {:induction false} ElementsSize(chain: seq<Node>)
    requires Distinct(chain)
    ensures |Elements(chain)| == |chain|
  {
    if chain != [] {
      var n := |chain| - 1;
      assert chain == chain[..n] + [chain[n]];
      ElementsSize(chain[..n]);
      assert Elements(chain) == Elements(chain[..n]) + {chain[n]} && chain[n] !in Elements(chain[..n]);
    }
  }

  ghost function Elements(chain: seq<Node>): set<Node> {
    set n | n in chain
  }

  /** No node is in two places. */
  ghost predicate PlacedOnce(oc: seq<seq<Node>>) {
    forall y, j, y', j' ::
      0 <= y < |oc| && 0 <= j < |oc[y]| && 0 <= y' < |oc| && 0 <= j' < |oc[y']| && oc[y][j] == oc[y'][j'] ==>
      y == y' && j == j'
  }

  /** `done` has the nodes of the first x chains and no others of these chains. */
  ghost predicate MovedBefore(oc: seq<seq<Node>>, done: set<Node>, x: nat) {
    forall y, j :: 0 <= y < |oc| && 0 <= j < |oc[y]| ==> (oc[y][j] in done <==> y < x)
  }

  lemma NoneMoved(oc: seq<seq<Node>>)
    ensures MovedBefore(oc, {}, 0)
  {
  }

  lemma OneMoreMoved(oc: seq<seq<Node>>, done: set<Node>, x: nat)
    requires PlacedOnce(oc) && MovedBefore(oc, done, x) && x < |oc|
    ensures forall n :: n in oc[x] ==> n !in done
    ensures Distinct(oc[x]) && |done + Elements(oc[x])| == |done| + |oc[x]|
    ensures forall y, n :: x < y < |oc| && n in oc[y] ==> n !in oc[x]
    ensures MovedBefore(oc, done + Elements(oc[x]), x + 1)
  {
    ElementsCount(oc[x], Elements(oc[x]));
    assert done !! Elements(oc[x]);
  }

  lemma AllMoved(oc: seq<seq<Node>>, done: set<Node>, nodes: set<Node>)
    requires MovedBefore(oc, done, |oc|) && done <= nodes
    requires forall n :: n in nodes ==> exists y, j :: 0 <= y < |oc| && 0 <= j < |oc[y]| && oc[y][j] == n
    ensures done == nodes
  {
  }

  lemma GrownHasRoom(size: nat, entries: nat)
    requires size >= 2 && entries <= size / 4
    ensures entries < Grown(2, 2 * size) / 4
  {
  }

  /** A key of the table is removed alone iff no other key of the table shares its bucket. */
  lemma RemovesAlone(m: map<Key, Value>, size: nat, key: Key)
    requires size > 0 && key in m
    ensures AfterRemove(m, size, key) == m - {key} <==>
              forall k :: k in m && k != key ==> GenKey(size, k) != GenKey(size, key)
  {
    hide GenKey;
    var left := AfterRemove(m, size, key);
    if k :| k in m && k != key && GenKey(size, k) == GenKey(size, key) {
      assert k !in left && k in m - {key};
    } else {
      assert left == m - {key};
    }
  }

  /** A removal of a missing key changes nothing; one of a key of the table takes the keys of its bucket alone. */
  lemma RemoveExactly(m: map<Key, Value>, size: nat, key: Key, k: Key)
    requires size > 0
    ensures var m' := AfterRemove(m, size, key);
            && (key !in m ==> m' == m)
            && (k in m' <==> k in m && (key in m ==> GenKey(size, k) != GenKey(size, key)))
            && (k in m' ==> m'[k] == m[k])
  {
    hide GenKey;
    var m' := AfterRemove(m, size, key);
    assert key in m && k in m && GenKey(size, k) != GenKey(size, key) ==> k in m';
  }

  /** An insertion of a key of the table changes nothing; one of another key grows the table if it is a quarter full. */
  lemma AddExactly(m: map<Key, Value>, size: nat, key: Key, val: Value)
    requires size >= 2
    ensures var (m', size') := AfterAdd(m, size, key, val);
            && (key in m ==> m' == m && size' == size)
            && (key !in m ==> m' == m[key := val] && (size' == size <==> |m| < size / 4))
            && (size' != size ==> 2 * size <= size' < 4 * size)
  {
    var k := GrownDoubles(2, 2 * size);
  }

  /** The least number of doublings that reaches the size. */
  lemma {:induction false} GrownDoubles(from: nat, size: int) returns (k: nat)
    requires from > 0
    ensures Grown(from, size) == from * Pow2(k) >= size && (k > 0 ==> from * Pow2(k - 1) < size)
    ensures Grown(from, size) == from || Grown(from, size) < 2 * size
    decreases size - from
  {
    k := 0;
    if from < size {
      var j := GrownDoubles(2 * from, size);
      k := j + 1;
      Twofold(from, Pow2(j));
      if j > 0 {
        Twofold(from, Pow2(j - 1));
      }
    }
  }

  lemma Twofold(from: nat, p: nat)
    ensures 2 * from * p == from * (2 * p)
  {
  }

  lemma {:induction false} FnvAppend(s: seq<bv8>, octet: bv8, hval: bv32)
    ensures Fnv(s + [octet], hval) == Mix(Fnv(s, hval), octet)
  {
    hide Mix;
    if s == [] {
      assert (s + [octet])[1..] == [];
    } else {
      assert (s + [octet])[1..] == s[1..] + [octet];
      FnvAppend(s[1..], octet, Mix(hval, s[0]));
    }
  }

  /** "qy" and "awd" fall in one bucket of a new table, so that removing the one loses the other. */
  lemma RemovingLosesAnother(v: Value, w: Value)
    ensures var qy: Key, awd: Key := [113, 121], [97, 119, 100];
            qy != awd && AfterRemove(map[qy := v, awd := w], 10240, qy) == map[]
  {
    hide Fnv, Mix;
    var qy: Key, awd: Key := [113, 121], [97, 119, 100];
    FnvOfPair(113, 121);
    FnvOfPair(97, 119);
    FnvAppend([97, 119], 100, FNV1_32_INIT);
    assert [97, 119] + [100] == awd;
    MixedValues();
  }

  lemma FnvOfPair(a: bv8, b: bv8)
    ensures Fnv([a, b], FNV1_32_INIT) == Mix(Mix(FNV1_32_INIT, a), b)
  {
    hide Mix;
    FnvAppend([], a, FNV1_32_INIT);
    FnvAppend([a], b, FNV1_32_INIT);
    assert [] + [a] == [a] && [a] + [b] == [a, b];
  }

  lemma MixedValues()
    ensures Mix(Mix(FNV1_32_INIT, 113), 121) == 0x544c203f
    ensures Mix(Mix(Mix(FNV1_32_INIT, 97), 119), 100) == 0x0d68283f
    ensures (0x544c203f as bv32 as nat) % 10240 == (0x0d68283f as bv32 as nat) % 10240
  {
  }

  /** One call that changes the table. */
  datatype Op = Add(key: Key, val: Value) | Delete(key: Key)

  /** What a new table holds, and its size, after the calls of `ops`. */
  ghost function After(ops: seq<Op>): (r: (map<Key, Value>, nat))
    ensures r.1 >= 2 && |r.0| <= r.1 / 4
  {
    if ops == [] then (map[], 10240)
    else
      var (m, size) := After(ops[..|ops| - 1]);
      match ops[|ops| - 1]
      case Add(key, val) => AfterAddFits(m, size, key, val); AfterAdd(m, size, key, val)
      case Delete(key) => AfterRemoveFits(m, size, key); (AfterRemove(m, size, key), size)
  }

  lemma AfterAddFits(m: map<Key, Value>, size: nat, key: Key, val: Value)
    requires size >= 2 && |m| <= size / 4
    ensures var r := AfterAdd(m, size, key, val); r.1 >= 2 && |r.0| <= r.1 / 4
  {
  }

  lemma AfterRemoveFits(m: map<Key, Value>, size: nat, key: Key)
    requires size > 0
    ensures |AfterRemove(m, size, key)| <= |m|
  {
    hide GenKey;
    SubsetSize(AfterRemove(m, size, key).Keys, m.Keys);
    assert |AfterRemove(m, size, key).Keys| == |AfterRemove(m, size, key)|;
  }

  lemma {:induction false} SubsetSize<T>(a: set<T>, b: set<T>)
    requires a <= b
    ensures |a| <= |b| && |b - a| == |b| - |a|
  {
    assert b == a + (b - a);
  }

  /** The first value written for `key`. */
  function FirstWrite(ops: seq<Op>, key: Key): Option<Value> {
    if ops == [] then None
    else if ops[0].Add? && ops[0].key == key then Some(ops[0].val)
    else FirstWrite(ops[1..], key)
  }

  /** Without removals, the table holds of every key the first value written for it, whatever it was resized to. */
  lemma {:induction false} FirstWriteWins(ops: seq<Op>, key: Key)
    requires forall op :: op in ops ==> op.Add?
    ensures var m := After(ops).0; (if key in m then Some(m[key]) else None) == FirstWrite(ops, key)
  {
    if ops != [] {
      var n := |ops| - 1;
      FirstWriteWins(ops[..n], key);
      FirstWriteAppend(ops[..n], ops[n], key);
      assert ops == ops[..n] + [ops[n]] && ops[n] in ops;
    }
  }

  lemma {:induction false} FirstWriteAppend(ops: seq<Op>, op: Op, key: Key)
    ensures FirstWrite(ops + [op], key)
            == if FirstWrite(ops, key).Some? then FirstWrite(ops, key) else FirstWrite([op], key)
  {
    if ops == [] {
      assert ops + [op] == [op];
    } else {
      assert (ops + [op])[1..] == ops[1..] + [op] && (ops + [op])[0] == ops[0];
      FirstWriteAppend(ops[1..], op, key);
    }
  }

  /** Any sequence of calls on a new table. */
  method Replay(ops: seq<Op>) returns (h: Hash)
    ensures fresh(h) && h.Valid() && (h.M, h.size) == After(ops)
  {
    hide AfterAdd, AfterRemove, Hash.Shape, Hash.ShapeOf, Describes;
    h := new Hash();
    assert ops[..0] == [];
    for i := 0 to |ops|
      invariant fresh(h) && fresh(h.table) && fresh(h.nodes) && h.Valid() && (h.M, h.size) == After(ops[..i])
    {
      assert ops[..i + 1][..i] == ops[..i] && ops[..i + 1][i] == ops[i];
      match ops[i]
      case Add(key, val) => h.Nadd(key, val);
      case Delete(key) => h.Remove(key);
    }
    assert ops[..|ops|] == ops;
  }
}
