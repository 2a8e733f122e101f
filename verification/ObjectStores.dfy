/** The sharded object store as one flat map. */
module ObjectStores {
  import opened Machine
  import opened Modular
  import opened BacnetTypes
  import opened PropertyIds
  import opened SimValues

  datatype BacnetObject =
    BacnetObject(deviceId: U32, objectId: ObjectId, properties: map<PropertyIdentifier, SimValue>)

  type Key = (nat, nat)
  type Shard = map<Key, BacnetObject>
  type Listing = seq<(U32, BacnetObject)>

  const NUM_SHARDS: nat := 256

  // ---- The key -----------------------------------------------------------------------------

  function Bit(n: nat): nat {
    n % 2
  }

  function BitOr(a: nat, b: nat): nat {
    if a == 0 && b == 0 then 0
    else (if Bit(a) == 1 || Bit(b) == 1 then 1 else 0) + 2 * BitOr(a / 2, b / 2)
  }

  function ObjectKey(device: U32, oid: ObjectId): Key {
    (device, BitOr(oid.objectType * 0x40_0000, oid.instance))
  }

  function Pow2(n: nat): (p: nat)
    ensures p > 0
  {
    if n == 0 then 1 else 2 * Pow2(n - 1)
  }

  /** Bit `k` of a number, counted from the low end. */
  predicate HasBit(n: nat, k: nat) {
    n / Pow2(k) % 2 == 1
  }

  lemma HalfDivided(n: nat, p: nat)
    requires p > 0
    ensures n / (2 * p) == n / 2 / p
  {
    var q, r := n / 2 / p, n / 2 % p;
    DivModUnique(q, 2 * r + n % 2, 2 * p);
    assert n == 2 * (n / 2) + n % 2;
    assert n / 2 == q * p + r;
    assert q * (2 * p) == 2 * (q * p);
  }

  lemma HalfHasBit(n: nat, k: nat)
    requires k > 0
    ensures HasBit(n, k) <==> HasBit(n / 2, k - 1)
  {
    HalfDivided(n, Pow2(k - 1));
  }

  lemma BitOrHalves(a: nat, b: nat)
    ensures BitOr(a, b) / 2 == BitOr(a / 2, b / 2)
    ensures HasBit(BitOr(a, b), 0) <==> HasBit(a, 0) || HasBit(b, 0)
  {
    assert Pow2(0) == 1;
  }

  /** The disjunction bit by bit. */
  lemma {:induction false} BitOrBits(a: nat, b: nat, k: nat)
    ensures HasBit(BitOr(a, b), k) <==> HasBit(a, k) || HasBit(b, k)
    decreases k
  {
    hide HasBit, BitOr;
    BitOrHalves(a, b);
    if k > 0 {
      HalfHasBit(BitOr(a, b), k);
      HalfHasBit(a, k);
      HalfHasBit(b, k);
      BitOrBits(a / 2, b / 2, k - 1);
    }
  }

  lemma {:induction false} BitOrZero(b: nat)
    ensures BitOr(0, b) == b
    decreases b
  {
    if b > 0 {
      BitOrZero(b / 2);
    }
  }

  /** Above its low `n` bits the disjunction is a sum. */
  lemma {:induction false} BitOrIsSum(t: nat, n: nat, i: nat)
    requires i < Pow2(n)
    ensures BitOr(t * Pow2(n), i) == t * Pow2(n) + i
    decreases n
  {
    if n == 0 {
      BitOrZero(t);
      BitOrNoLow(t);
    } else {
      Halves(t, n);
      BitOrIsSum(t, n - 1, i / 2);
      if t * Pow2(n) == 0 { BitOrZero(i); }
    }
  }

  lemma {:induction false} BitOrNoLow(a: nat)
    ensures BitOr(a, 0) == a
    decreases a
  {
    if a > 0 {
      BitOrNoLow(a / 2);
    }
  }

  lemma Halves(t: nat, n: nat)
    requires n > 0
    ensures t * Pow2(n) == 2 * (t * Pow2(n - 1))
  {
  }

  lemma Pow2Of22()
    ensures Pow2(22) == 0x40_0000
  {
    assert Pow2(8) == 256;
    assert Pow2(16) == 65536;
  }

  lemma KeyIsSum(device: U32, oid: ObjectId)
    requires oid.instance < 0x40_0000
    ensures ObjectKey(device, oid) == (device, oid.objectType * 0x40_0000 + oid.instance)
  {
    Pow2Of22();
    BitOrIsSum(oid.objectType, 22, oid.instance);
  }

  ghost predicate KeysDistinct(bound: nat) {
    forall d: U32, e: U32, a: ObjectId, b: ObjectId ::
      a.instance < bound && b.instance < bound && ObjectKey(d, a) == ObjectKey(e, b) ==> d == e && a == b
  }

  lemma SumsDistinct(a: ObjectId, b: ObjectId)
    requires a.instance < 0x40_0000 && b.instance < 0x40_0000
    requires a.objectType * 0x40_0000 + a.instance == b.objectType * 0x40_0000 + b.instance
    ensures a == b
  {
  }

  /** Keys tell objects apart exactly when instance numbers are kept to 22 bits. */
  lemma KeysDistinctExactly(bound: nat)
    ensures KeysDistinct(bound) <==> bound <= 0x40_0000
  {
    hide ObjectKey;
    if bound <= 0x40_0000 {
      forall d: U32, e: U32, a: ObjectId, b: ObjectId |
        a.instance < bound && b.instance < bound && ObjectKey(d, a) == ObjectKey(e, b)
        ensures d == e && a == b
      {
        KeyIsSum(d, a);
        KeyIsSum(e, b);
        SumsDistinct(a, b);
      }
    } else {
      var a, b := ObjectId(0, 0x40_0000), ObjectId(1, 0);
      assert ObjectKey(0, a) == ObjectKey(0, b) by { OneCollision(); }
    }
  }

  lemma OneCollision()
    ensures ObjectKey(0, ObjectId(0, 0x40_0000)) == ObjectKey(0, ObjectId(1, 0))
  {
    BitOrZero(0x40_0000);
    BitOrNoLow(0x40_0000);
  }

  // ---- The flat map ------------------------------------------------------------------------

  function ShardOf(hash: Key -> nat, key: Key): (i: nat)
    ensures i < NUM_SHARDS
  {
    hash(key) % NUM_SHARDS
  }

  predicate Sharded(hash: Key -> nat, shards: seq<Shard>) {
    forall i, key :: 0 <= i < |shards| && key in shards[i] ==> ShardOf(hash, key) == i
  }

  /** All shards as one map. */
  function Merged(shards: seq<Shard>): map<Key, BacnetObject> {
    if shards == [] then map[] else Merged(shards[..|shards| - 1]) + shards[|shards| - 1]
  }

  function TotalSize(shards: seq<Shard>): nat {
    if shards == [] then 0 else TotalSize(shards[..|shards| - 1]) + |shards[|shards| - 1]|
  }

  /** An entry of the flat map is an entry of the key's own shard. */
  lemma {:induction false} MergedLookup(hash: Key -> nat, shards: seq<Shard>, key: Key)
    requires Sharded(hash, shards)
    ensures var i := ShardOf(hash, key);
      (key in Merged(shards) <==> i < |shards| && key in shards[i])
      && (key in Merged(shards) ==> Merged(shards)[key] == shards[i][key])
    decreases |shards|
  {
    hide ShardOf;
    if shards != [] {
      MergedLookup(hash, shards[..|shards| - 1], key);
    }
  }

  lemma {:induction false} MergedSize(hash: Key -> nat, shards: seq<Shard>)
    requires Sharded(hash, shards)
    ensures |Merged(shards)| == TotalSize(shards)
    decreases |shards|
  {
    hide ShardOf;
    if shards != [] {
      var n := |shards| - 1;
      MergedSize(hash, shards[..n]);
      forall key | key in shards[n] ensures key !in Merged(shards[..n]) {
        MergedLookup(hash, shards[..n], key);
      }
      DisjointSum(Merged(shards[..n]), shards[n]);
    }
  }

  lemma DisjointSum(a: Shard, b: Shard)
    requires a.Keys !! b.Keys
    ensures |a + b| == |a| + |b|
  {
    assert (a + b).Keys == a.Keys + b.Keys;
    assert |a| == |a.Keys| && |b| == |b.Keys| && |a + b| == |(a + b).Keys|;
  }

  // ---- Lists of insertions -------------------------------------------------------------------

  function KeyOf(item: (U32, BacnetObject)): Key {
    ObjectKey(item.0, item.1.objectId)
  }

  /** Insertions in list order. */
  function InsertAll(flat: map<Key, BacnetObject>, items: Listing): map<Key, BacnetObject> {
    if items == [] then flat
    else
      var last := items[|items| - 1];
      InsertAll(flat, items[..|items| - 1])[KeyOf(last) := last.1]
  }

  /** The items bound for one shard. */
  function Bucket(hash: Key -> nat, items: Listing, i: nat): Listing {
    if items == [] then []
    else
      var last := items[|items| - 1];
      Bucket(hash, items[..|items| - 1], i) + if ShardOf(hash, KeyOf(last)) == i then [last] else []
  }

  lemma BucketNext(hash: Key -> nat, items: Listing, item: (U32, BacnetObject), i: nat)
    ensures Bucket(hash, items + [item], i)
      == Bucket(hash, items, i) + if ShardOf(hash, KeyOf(item)) == i then [item] else []
  {
    assert (items + [item])[..|items|] == items;
  }

  lemma InsertNext(flat: map<Key, BacnetObject>, items: Listing, item: (U32, BacnetObject))
    ensures InsertAll(flat, items + [item]) == InsertAll(flat, items)[KeyOf(item) := item.1]
  {
    assert (items + [item])[..|items|] == items;
  }

  /** For a key, only the items of its own shard matter. */
  lemma {:induction false} BucketSuffices(hash: Key -> nat, flat: map<Key, BacnetObject>, shard: Shard, items: Listing,
      key: Key)
    requires key in flat <==> key in shard
    requires key in flat ==> flat[key] == shard[key]
    ensures var a, b := InsertAll(flat, items), InsertAll(shard, Bucket(hash, items, ShardOf(hash, key)));
      (key in a <==> key in b) && (key in a ==> a[key] == b[key])
    decreases |items|
  {
    hide ShardOf, KeyOf;
    if items != [] {
      var n, i := |items| - 1, ShardOf(hash, key);
      BucketSuffices(hash, flat, shard, items[..n], key);
      if ShardOf(hash, KeyOf(items[n])) == i {
        InsertNext(shard, Bucket(hash, items[..n], i), items[n]);
      } else {
        assert Bucket(hash, items, i) == Bucket(hash, items[..n], i);
      }
    }
  }

  lemma {:induction false} BucketStaysInShard(hash: Key -> nat, shard: Shard, items: Listing, i: nat)
    requires forall key :: key in shard ==> ShardOf(hash, key) == i
    ensures forall key :: key in InsertAll(shard, Bucket(hash, items, i)) ==> ShardOf(hash, key) == i
    decreases |items|
  {
    hide ShardOf, KeyOf;
    if items != [] {
      var n := |items| - 1;
      BucketStaysInShard(hash, shard, items[..n], i);
      if ShardOf(hash, KeyOf(items[n])) == i {
        InsertNext(shard, Bucket(hash, items[..n], i), items[n]);
      } else {
        assert Bucket(hash, items, i) == Bucket(hash, items[..n], i);
      }
    }
  }

  /** Filling every shard from its bucket is inserting into the flat map in list order. */
  lemma BucketsAreInsertions(hash: Key -> nat, before: seq<Shard>, after: seq<Shard>, items: Listing)
    requires |before| == |after| == NUM_SHARDS && Sharded(hash, before)
    requires forall i :: 0 <= i < NUM_SHARDS ==> after[i] == InsertAll(before[i], Bucket(hash, items, i))
    ensures Sharded(hash, after)
    ensures Merged(after) == InsertAll(Merged(before), items)
  {
    hide ShardOf, Bucket, InsertAll, Merged;
    forall i | 0 <= i < NUM_SHARDS ensures forall key :: key in after[i] ==> ShardOf(hash, key) == i {
      BucketStaysInShard(hash, before[i], items, i);
    }
    forall key
      ensures key in Merged(after) <==> key in InsertAll(Merged(before), items)
      ensures key in Merged(after) ==> Merged(after)[key] == InsertAll(Merged(before), items)[key]
    {
      MergedLookup(hash, before, key);
      MergedLookup(hash, after, key);
      BucketSuffices(hash, Merged(before), before[ShardOf(hash, key)], items, key);
    }
  }

  // ---- The store ------------------------------------------------------------------------------

  /** Where an object is found. */
  datatype ObjectRef = ObjectRef(shard: nat, key: Key)

  class ObjectStore {
    const hash: Key -> nat
    var shards: seq<Shard>

    predicate Valid()
      reads this
    {
      |shards| == NUM_SHARDS && Sharded(hash, shards)
    }

    /** The one map that the store stands for. */
    function Flat(): map<Key, BacnetObject>
      reads this
    {
      Merged(shards)
    }

    /** The reference leads to this object. */
    predicate Holds(r: ObjectRef, obj: BacnetObject)
      reads this
    {
      r.shard < |shards| && r.key in shards[r.shard] && shards[r.shard][r.key] == obj
    }

    constructor (hash: Key -> nat)
      ensures Valid() && Flat() == map[] && this.hash == hash
    {
      this.hash := hash;
      shards := seq(NUM_SHARDS, i => map[]);
      new;
      forall key ensures key !in Merged(shards) {
        MergedLookup(hash, shards, key);
      }
    }

    method Insert(device: U32, obj: BacnetObject)
      requires Valid()
      modifies this
      ensures Valid() && Flat() == old(Flat())[ObjectKey(device, obj.objectId) := obj]
    {
      hide ShardOf, ObjectKey;
      var key := ObjectKey(device, obj.objectId);
      var i := ShardOf(hash, key);
      shards := shards[i := shards[i][key := obj]];
      forall k
        ensures k in Flat() <==> k in old(Flat()) || k == key
        ensures k in Flat() ==> Flat()[k] == if k == key then obj else old(Flat())[k]
      {
        MergedLookup(hash, old(shards), k);
        MergedLookup(hash, shards, k);
      }
    }

    method BulkInsert(objects: Listing)
      requires Valid()
      modifies this
      ensures Valid() && Flat() == InsertAll(old(Flat()), objects)
    {
      hide ShardOf, KeyOf;
      var byShard: seq<Listing> := seq(NUM_SHARDS, i => []);
      for n := 0 to |objects|
        invariant |byShard| == NUM_SHARDS
        invariant forall i :: 0 <= i < NUM_SHARDS ==> byShard[i] == Bucket(hash, objects[..n], i)
      {
        var shard := ShardOf(hash, KeyOf(objects[n]));
        byShard := byShard[shard := byShard[shard] + [objects[n]]];
        assert objects[..n + 1] == objects[..n] + [objects[n]];
        forall i | 0 <= i < NUM_SHARDS ensures byShard[i] == Bucket(hash, objects[..n + 1], i) {
          BucketNext(hash, objects[..n], objects[n], i);
        }
      }
      assert objects[..|objects|] == objects;
      for i := 0 to NUM_SHARDS
        invariant |shards| == NUM_SHARDS
        invariant forall j :: 0 <= j < i ==> shards[j] == InsertAll(old(shards)[j], Bucket(hash, objects, j))
        invariant forall j :: i <= j < NUM_SHARDS ==> shards[j] == old(shards)[j]
      {
        if byShard[i] != [] {
          FillShard(i, byShard[i]);
        }
      }
      BucketsAreInsertions(hash, old(shards), shards, objects);
    }

    /** One shard under its lock. */
    method FillShard(i: nat, items: Listing)
      requires i < |shards|
      modifies this
      ensures shards == old(shards)[i := InsertAll(old(shards)[i], items)]
    {
      hide KeyOf;
      for n := 0 to |items|
        invariant shards == old(shards)[i := InsertAll(old(shards)[i], items[..n])]
      {
        shards := shards[i := shards[i][KeyOf(items[n]) := items[n].1]];
        assert items[..n + 1] == items[..n] + [items[n]];
        InsertNext(old(shards)[i], items[..n], items[n]);
      }
      assert items[..|items|] == items;
    }

    method Count() returns (n: nat)
      requires Valid()
      ensures n == |Flat()|
    {
      n := 0;
      for i := 0 to NUM_SHARDS
        invariant n == TotalSize(shards[..i])
      {
        n := n + |shards[i]|;
        assert shards[..i + 1][..i] == shards[..i];
      }
      assert shards[..NUM_SHARDS] == shards;
      MergedSize(hash, shards);
    }

    method Get(device: U32, oid: ObjectId) returns (r: Option<ObjectRef>)
      requires Valid()
      ensures r.Some? <==> ObjectKey(device, oid) in Flat()
      ensures r.Some? ==> Holds(r.value, Flat()[ObjectKey(device, oid)])
    {
      hide ObjectKey, ShardOf;
      var key := ObjectKey(device, oid);
      var i := ShardOf(hash, key);
      MergedLookup(hash, shards, key);
      if key in shards[i] {
        return Some(ObjectRef(i, key));
      }
      return None;
    }
  }

  // ---- Keyed by device and object ---------------------------------------------------------------

  /** What a caller has in mind: one map keyed by device and object, the last insertion winning. */
  function Registry(items: Listing): map<(U32, ObjectId), BacnetObject> {
    if items == [] then map[]
    else
      var last := items[|items| - 1];
      Registry(items[..|items| - 1])[(last.0, last.1.objectId) := last.1]
  }

  predicate InstancesFit(items: Listing) {
    forall i :: 0 <= i < |items| ==> items[i].1.objectId.instance < 0x40_0000
  }

  lemma KeyInjective(d: U32, e: U32, a: ObjectId, b: ObjectId)
    requires a.instance < 0x40_0000 && b.instance < 0x40_0000
    ensures ObjectKey(d, a) == ObjectKey(e, b) <==> d == e && a == b
  {
    KeyIsSum(d, a);
    KeyIsSum(e, b);
    if ObjectKey(d, a) == ObjectKey(e, b) {
      SumsDistinct(a, b);
    }
  }

  /** After any insertions, one by one or in bulk, every look-up gives what the caller has in mind. */
  lemma {:induction false} StoreRefinesRegistry(items: Listing, device: U32, oid: ObjectId)
    requires InstancesFit(items) && oid.instance < 0x40_0000
    ensures var flat, registry, key := InsertAll(map[], items), Registry(items), ObjectKey(device, oid);
      (key in flat <==> (device, oid) in registry) && (key in flat ==> flat[key] == registry[(device, oid)])
    decreases |items|
  {
    hide ObjectKey;
    if items != [] {
      var n := |items| - 1;
      StoreRefinesRegistry(items[..n], device, oid);
      KeyInjective(items[n].0, device, items[n].1.objectId, oid);
    }
  }

  /** And the number of objects is the number of entries. */
  lemma {:induction false} CountRefinesRegistry(items: Listing)
    requires InstancesFit(items)
    ensures |InsertAll(map[], items)| == |Registry(items)|
    decreases |items|
  {
    hide ObjectKey;
    if items != [] {
      var n := |items| - 1;
      var flat, registry := InsertAll(map[], items[..n]), Registry(items[..n]);
      CountRefinesRegistry(items[..n]);
      StoreRefinesRegistry(items[..n], items[n].0, items[n].1.objectId);
      SizeAfterUpdate(flat, KeyOf(items[n]), items[n].1);
      SizeAfterUpdate(registry, (items[n].0, items[n].1.objectId), items[n].1);
    }
  }

  lemma SizeAfterUpdate<K, V>(m: map<K, V>, k: K, v: V)
    ensures |m[k := v]| == |m| + if k in m then 0 else 1
  {
    assert m[k := v].Keys == m.Keys + {k};
    assert |m| == |m.Keys| && |m[k := v]| == |m[k := v].Keys|;
  }
}
