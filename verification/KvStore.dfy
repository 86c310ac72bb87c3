/** kv_store.c as one thread sees it: a chained hash table of 1024 buckets that must behave as a map. */
module KvStore {
  import opened Wrappers

  const BUCKETS: nat := 1024
  const ENOENT: int := 2

  type Addr = nat

  /** struct kv_pair, with the address it was allocated at. */
  datatype Node = Node(addr: Addr, key: int, value: int)

  /** kv_hash: C's %, which takes the sign of the key. */
  function Hash(key: int): int {
    if key >= 0 then key % BUCKETS else -((-key) % BUCKETS)
  }

  /** The code can use the key: its bucket is inside the tables. */
  predicate HasBucket(key: int) { 0 <= Hash(key) < BUCKETS }

  /** The bucket exists for every key that is not negative, and for just those negative ones that BUCKETS
      divides; for any other the code indexes in front of its tables. */
  lemma HashInTable(key: int)
    ensures HasBucket(key) <==> key >= 0 || key % BUCKETS == 0
    ensures Hash(-1) == -1
  {
  }

  /** The value of the first node with this key. */
  function Find(bucket: seq<Node>, key: int): Option<int> {
    if bucket == [] then None
    else if bucket[0].key == key then Some(bucket[0].value)
    else Find(bucket[1..], key)
  }

  /** What read_kv returns: a missing key and a stored -ENOENT look the same. */
  function Reply(found: Option<int>): int {
    if found.Some? then found.value else -ENOENT
  }

  lemma ReplyIsAmbiguous(a: Option<int>, b: Option<int>)
    ensures Reply(a) == Reply(b) <==> a == b || {a, b} == {None, Some(-ENOENT)}
    ensures Reply(None) == -2 && (a.Some? ==> Reply(a) == a.value)
  {
    assert a in {a, b} && b in {a, b};
    if Reply(a) == Reply(b) && a != b {
      assert {a, b} == {None, Some(-ENOENT)};
    }
  }

  /** A bucket holds keys of its own, each once. */
  ghost predicate ChainOk(bucket: seq<Node>, h: int) {
    && (forall i :: 0 <= i < |bucket| ==> Hash(bucket[i].key) == h)
    && (forall i, j :: 0 <= i < j < |bucket| ==> bucket[i].key != bucket[j].key)
  }

  lemma {:induction false} FindAt(bucket: seq<Node>, key: int, i: nat)
    requires i < |bucket| && bucket[i].key == key && forall j :: 0 <= j < i ==> bucket[j].key != key
    ensures Find(bucket, key) == Some(bucket[i].value)
  {
    if i > 0 {
      FindAt(bucket[1..], key, i - 1);
    }
  }

  lemma {:induction false} FindNone(bucket: seq<Node>, key: int)
    requires forall j :: 0 <= j < |bucket| ==> bucket[j].key != key
    ensures Find(bucket, key) == None
  {
    if bucket != [] {
      FindNone(bucket[1..], key);
    }
  }

  /** Storing a value in a node changes what its key finds and nothing else. */
  lemma {:induction false} FindAfterUpdate(bucket: seq<Node>, i: nat, value: int, key: int)
    requires i < |bucket| && forall j :: 0 <= j < i ==> bucket[j].key != bucket[i].key
    ensures Find(Updated(bucket, i, value), key)
      == if key == bucket[i].key then Some(value) else Find(bucket, key)
  {
    var after := Updated(bucket, i, value);
    if i > 0 {
      assert after[1..] == bucket[1..][i - 1 := bucket[i].(value := value)];
      FindAfterUpdate(bucket[1..], i - 1, value, key);
    } else {
      assert after[1..] == bucket[1..];
    }
  }

  lemma FindAfterInsert(bucket: seq<Node>, node: Node, key: int)
    ensures Find([node] + bucket, key) == if key == node.key then Some(node.value) else Find(bucket, key)
  {
    assert ([node] + bucket)[1..] == bucket;
  }

  type Table = seq<seq<Node>>

  ghost predicate ChainsOk(table: Table) {
    forall h :: 0 <= h < |table| ==> ChainOk(table[h], h)
  }

  predicate At(table: Table, h: int, i: int) {
    0 <= h < |table| && 0 <= i < |table[h]|
  }

  ghost predicate Linked(table: Table, a: Addr) {
    exists h, i :: At(table, h, i) && table[h][i].addr == a
  }

  /** Each node has an allocation of its own, and these are all there are. */
  ghost predicate MemoryOk(table: Table, live: set<Addr>) {
    && (forall h, i :: At(table, h, i) ==> table[h][i].addr in live)
    && (forall h, i, g, j :: At(table, h, i) && At(table, g, j) && table[h][i].addr == table[g][j].addr ==>
          h == g && i == j)
    && (forall a :: a in live ==> Linked(table, a))
  }

  /** found->value = v */
  function Updated(bucket: seq<Node>, i: nat, value: int): seq<Node>
    requires i < |bucket|
  {
    bucket[i := bucket[i].(value := value)]
  }

  lemma MemoryAfterUpdate(table: Table, h: nat, i: nat, value: int, live: set<Addr>)
    requires MemoryOk(table, live) && At(table, h, i)
    ensures MemoryOk(table[h := Updated(table[h], i, value)], live)
  {
    var now := table[h := Updated(table[h], i, value)];
    assert forall g, j :: At(now, g, j) <==> At(table, g, j);
    assert forall g, j :: At(table, g, j) ==> now[g][j].addr == table[g][j].addr;
    forall a | a in live ensures Linked(now, a) {
      var g, j :| At(table, g, j) && table[g][j].addr == a;
      assert At(now, g, j);
    }
  }

  lemma MemoryAfterInsert(table: Table, h: nat, node: Node, live: set<Addr>)
    requires MemoryOk(table, live) && h < |table| && node.addr !in live
    ensures MemoryOk(table[h := [node] + table[h]], live + {node.addr})
  {
    var now := table[h := [node] + table[h]];
    assert At(now, h, 0) && now[h][0] == node;
    forall g, j | At(now, g, j) && !(g == h && j == 0)
      ensures var i := if g == h then j - 1 else j; At(table, g, i) && now[g][j] == table[g][i]
    {
    }
    forall a | a in live ensures Linked(now, a) {
      var g, j :| At(table, g, j) && table[g][j].addr == a;
      assert At(now, g, if g == h then j + 1 else j);
    }
  }

  lemma MemoryAfterRemove(table: Table, h: nat, live: set<Addr>)
    requires MemoryOk(table, live) && At(table, h, 0)
    ensures MemoryOk(table[h := table[h][1..]], live - {table[h][0].addr})
  {
    var now := table[h := table[h][1..]];
    forall g, j | At(now, g, j)
      ensures var i := if g == h then j + 1 else j; At(table, g, i) && now[g][j] == table[g][i]
    {
    }
    forall a | a in live && a != table[h][0].addr ensures Linked(now, a) {
      var g, j :| At(table, g, j) && table[g][j].addr == a;
      assert At(now, g, if g == h then j - 1 else j);
    }
  }

  lemma ChainAfterUpdate(bucket: seq<Node>, h: int, i: nat, value: int)
    requires ChainOk(bucket, h) && i < |bucket|
    ensures ChainOk(Updated(bucket, i, value), h)
  {
  }

  lemma FirstOfItsKey(bucket: seq<Node>, h: int, i: nat)
    requires ChainOk(bucket, h) && i < |bucket|
    ensures Hash(bucket[i].key) == h && forall j :: 0 <= j < i ==> bucket[j].key != bucket[i].key
  {
  }

  lemma ChainAfterInsert(bucket: seq<Node>, h: int, node: Node)
    requires ChainOk(bucket, h) && Hash(node.key) == h && forall j :: 0 <= j < |bucket| ==> bucket[j].key != node.key
    ensures ChainOk([node] + bucket, h)
  {
  }

  /** The store of one process: its buckets and the kv_pair allocations that have not been freed. */
  class Store {
    const buckets: array<seq<Node>>
    var live: set<Addr>

    ghost predicate Valid()
      reads this, buckets
    {
      && buckets.Length == BUCKETS
      && ChainsOk(buckets[..])
      && MemoryOk(buckets[..], live)
    }

    /** The map that the store stands for. */
    ghost function Get(key: int): Option<int>
      requires buckets.Length == BUCKETS
      reads buckets
    {
      var h := Hash(key);
      if 0 <= h < BUCKETS then Find(buckets[h], key) else None
    }

    /** kv_store_init */
    constructor ()
      ensures Valid() && fresh(buckets) && live == {} && forall key :: Get(key) == None
    {
      buckets := new seq<Node>[BUCKETS](_ => []);
      live := {};
    }

    /** A store with these lists. */
    constructor Filled(table: Table, live: set<Addr>)
      requires |table| == BUCKETS && ChainsOk(table) && MemoryOk(table, live)
      ensures Valid() && fresh(buckets) && buckets[..] == table && this.live == live
    {
      buckets := new seq<Node>[BUCKETS](i requires 0 <= i < |table| => table[i]);
      this.live := live;
      new;
      assert buckets[..] == table;
    }

    /** The search that both calls do: the first node with the key, or the end of the list. */
    method Search(key: int) returns (i: nat)
      requires buckets.Length == BUCKETS && HasBucket(key)
      ensures var bucket := buckets[Hash(key)];
        && i <= |bucket|
        && (forall j :: 0 <= j < i ==> bucket[j].key != key)
        && (i < |bucket| ==> bucket[i].key == key)
    {
      var bucket := buckets[Hash(key)];
      i := 0;
      while i < |bucket|
        invariant i <= |bucket| && forall j :: 0 <= j < i ==> bucket[j].key != key
      {
        if bucket[i].key == key {
          return;
        }
        i := i + 1;
      }
    }

    method ReadKv(key: int) returns (value: int)
      requires Valid() && HasBucket(key)
      ensures value == Reply(Get(key))
    {
      var i := Search(key);
      var bucket := buckets[Hash(key)];
      value := -ENOENT;
      if i < |bucket| {
        FindAt(bucket, key, i);
        value := bucket[i].value;
      } else {
        FindNone(bucket, key);
      }
    }

    /** a is what kmalloc gives, None when there is no memory; an unused one is freed again. */
    method WriteKv(key: int, value: int, a: Option<Addr>) returns (ok: bool)
      requires Valid() && HasBucket(key) && (a.Some? ==> a.value !in live)
      modifies this`live, buckets
      ensures Valid() && (ok <==> a.Some?)
      ensures forall k :: Get(k) == if ok && k == key then Some(value) else old(Get(k))
      ensures live == if ok && old(Get(key)).None? then old(live) + {a.value} else old(live)
    {
      hide MemoryOk, ChainOk, Find, Hash;
      if a.None? {
        return false;
      }
      live := live + {a.value};
      var h := Hash(key);
      var i := Search(key);
      ghost var before, table := live - {a.value}, buckets[..];
      assert before == old(live);
      if i < |buckets[h]| {
        FindAt(buckets[h], key, i);
        Update(h, i, value);
        MemoryAfterUpdate(table, h, i, value, before);
        live := live - {a.value};
        assert live == before && MemoryOk(buckets[..], live);
      } else {
        FindNone(buckets[h], key);
        Insert(h, Node(a.value, key, value));
        MemoryAfterInsert(table, h, Node(a.value, key, value), before);
        assert live == before + {a.value} && MemoryOk(buckets[..], live);
      }
      ok := true;
    }

    method Update(h: nat, i: nat, value: int)
      requires buckets.Length == BUCKETS && ChainsOk(buckets[..]) && At(buckets[..], h, i)
      modifies buckets
      ensures buckets[..] == old(buckets[..])[h := Updated(old(buckets[h]), i, value)] && ChainsOk(buckets[..])
      ensures forall k :: Get(k) == if k == old(buckets[h])[i].key then Some(value) else old(Get(k))
    {
      hide Find, ChainOk;
      ChainAfterUpdate(buckets[h], h, i, value);
      FirstOfItsKey(buckets[h], h, i);
      forall k
        ensures Find(Updated(buckets[h], i, value), k)
          == if k == buckets[h][i].key then Some(value) else Find(buckets[h], k)
      {
        FindAfterUpdate(buckets[h], i, value, k);
      }
      buckets[h] := Updated(buckets[h], i, value);
      assert buckets[..] == old(buckets[..])[h := Updated(old(buckets[h]), i, value)];
    }

    /** hlist_add_head */
    method Insert(h: nat, node: Node)
      requires buckets.Length == BUCKETS && ChainsOk(buckets[..])
      requires h < BUCKETS && Hash(node.key) == h && forall j :: 0 <= j < |buckets[h]| ==> buckets[h][j].key != node.key
      modifies buckets
      ensures buckets[..] == old(buckets[..])[h := [node] + old(buckets[h])] && ChainsOk(buckets[..])
      ensures forall k :: Get(k) == if k == node.key then Some(node.value) else old(Get(k))
    {
      hide Find, ChainOk;
      ChainAfterInsert(buckets[h], h, node);
      forall k ensures Find([node] + buckets[h], k) == if k == node.key then Some(node.value) else Find(buckets[h], k) {
        FindAfterInsert(buckets[h], node, k);
      }
      buckets[h] := [node] + buckets[h];
      assert buckets[..] == old(buckets[..])[h := [node] + old(buckets[h])];
    }

    /** kv_store_exit */
    method Exit()
      requires Valid()
      modifies this`live, buckets
      ensures Valid() && live == {} && forall key :: Get(key) == None
    {
      for h := 0 to BUCKETS
        invariant Valid() && forall g :: 0 <= g < h ==> buckets[g] == []
      {
        while buckets[h] != []
          invariant Valid() && forall g :: 0 <= g < h ==> buckets[g] == []
          decreases |buckets[h]|
        {
          RemoveHead(h);
        }
      }
      assert forall a :: a in live ==> Linked(buckets[..], a);
    }

    /** hlist_del and kfree */
    method RemoveHead(h: nat)
      requires Valid() && h < BUCKETS && buckets[h] != []
      modifies this`live, buckets
      ensures Valid() && buckets[..] == old(buckets[..])[h := old(buckets[h])[1..]]
      ensures live == old(live) - {old(buckets[h])[0].addr}
    {
      hide MemoryOk;
      MemoryAfterRemove(buckets[..], h, live);
      live := live - {buckets[h][0].addr};
      buckets[h] := buckets[h][1..];
      assert buckets[..] == old(buckets[..])[h := old(buckets[h])[1..]];
    }
  }
}
