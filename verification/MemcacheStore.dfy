/** The item store of examples/memcached/server (MemcacheServer.cc, Item.cc): 4096 hash sets behind one map from keys
    to items, six ways to store, and the numbers that compare-and-swap relies on. */
module MemcacheStore {
  import opened Machines
  import opened Streams
  import opened LogStreams

  const SHARDS: nat := 4096

  /** An item that is in the store does not change any more. The value ends with CR LF. */
  datatype Item = Item(key: Bytes, flags: nat, exptime: int, value: Bytes, cas: nat)

  datatype Policy = Set | Add | Replace | Append | Prepend | Cas

  predicate EndsWithCrlf(v: Bytes) {
    |v| >= 2 && v[|v| - 2..] == CRLF
  }

  function Payload(v: Bytes): Bytes
    requires |v| >= 2
  {
    v[..|v| - 2]
  }

  // The single map.

  datatype Store = Store(items: map<Bytes, Item>, cas: nat)

  predicate Stores(s: Store, item: Item, policy: Policy) {
    match policy
    case Set => true
    case Add => item.key !in s.items
    case Replace => item.key in s.items
    case Append => item.key in s.items
    case Prepend => item.key in s.items
    case Cas => item.key in s.items && s.items[item.key].cas == item.cas
  }

  /** The item that takes the key: the new one, or the old one with a longer value, under a new number. */
  function Stored(s: Store, item: Item, policy: Policy): Item
    requires Stores(s, item, policy) && |item.value| >= 2 && (item.key in s.items ==> |s.items[item.key].value| >= 2)
  {
    match policy
    case Append => s.items[item.key].(value := Payload(s.items[item.key].value) + item.value, cas := s.cas + 1)
    case Prepend => s.items[item.key].(value := Payload(item.value) + s.items[item.key].value, cas := s.cas + 1)
    case _ => item.(cas := s.cas + 1)
  }

  function AfterStore(s: Store, item: Item, policy: Policy): Store
    requires |item.value| >= 2 && (item.key in s.items ==> |s.items[item.key].value| >= 2)
  {
    if Stores(s, item, policy) then Store(s.items[item.key := Stored(s, item, policy)], s.cas + 1) else s
  }

  function AfterDelete(s: Store, key: Bytes): Store {
    s.(items := s.items - {key})
  }

  predicate Inv(s: Store) {
    && (forall k ::
        k in s.items ==> s.items[k].key == k && EndsWithCrlf(s.items[k].value) && 1 <= s.items[k].cas <= s.cas)
    && (forall j, k :: j in s.items && k in s.items && s.items[j].cas == s.items[k].cas ==> j == k)
  }

  lemma PayloadAndCrlf(v: Bytes)
    requires EndsWithCrlf(v)
    ensures |v| >= 2 && v == Payload(v) + CRLF
  {
  }

  lemma HasKey(s: Store, key: Bytes)
    requires Inv(s) && key in s.items
    ensures s.items[key].key == key && EndsWithCrlf(s.items[key].value) && |s.items[key].value| >= 2
  {
  }

  /** Appending and prepending concatenate the payloads and keep one line end, the flags and the expiry time. */
  lemma PayloadsConcatenate(s: Store, item: Item)
    requires Inv(s) && EndsWithCrlf(item.value) && item.key in s.items
    ensures var was, a, p := s.items[item.key], Stored(s, item, Append), Stored(s, item, Prepend);
            && a.value == Payload(was.value) + Payload(item.value) + CRLF
            && p.value == Payload(item.value) + Payload(was.value) + CRLF
            && a.flags == p.flags == was.flags && a.exptime == p.exptime == was.exptime
  {
    hide Inv, EndsWithCrlf, Payload;
    var was := s.items[item.key];
    HasKey(s, item.key);
    PayloadAndCrlf(was.value);
    PayloadAndCrlf(item.value);
    assert Payload(was.value) + (Payload(item.value) + CRLF) == Payload(was.value) + Payload(item.value) + CRLF;
    assert Payload(item.value) + (Payload(was.value) + CRLF) == Payload(item.value) + Payload(was.value) + CRLF;
  }

  lemma PutKeepsInv(s: Store, item: Item)
    requires Inv(s) && EndsWithCrlf(item.value) && item.cas == s.cas + 1
    ensures Inv(Store(s.items[item.key := item], s.cas + 1))
  {
  }

  lemma StoredIsWhole(s: Store, item: Item, policy: Policy)
    requires Inv(s) && EndsWithCrlf(item.value) && Stores(s, item, policy)
    ensures var x := Stored(s, item, policy); x.key == item.key && EndsWithCrlf(x.value) && x.cas == s.cas + 1
  {
    if policy.Append? || policy.Prepend? {
      PayloadsConcatenate(s, item);
      assert forall p: Bytes :: EndsWithCrlf(p + CRLF);
    }
  }

  lemma StoreKeepsInv(s: Store, item: Item, policy: Policy)
    requires Inv(s) && EndsWithCrlf(item.value)
    ensures Inv(AfterStore(s, item, policy))
  {
    if Stores(s, item, policy) {
      StoredIsWhole(s, item, policy);
      PutKeepsInv(s, Stored(s, item, policy));
    }
  }

  lemma DeleteKeepsInv(s: Store, key: Bytes)
    requires Inv(s)
    ensures Inv(AfterDelete(s, key))
  {
  }

  // What the commands leave, key by key.

  function At(s: Store, key: Bytes): Option<Item> {
    if key in s.items then Some(s.items[key]) else None
  }

  /** Every other key has what it had. */
  ghost predicate OthersKept(s: Store, z: Store, key: Bytes) {
    forall k :: k != key ==> At(z, k) == At(s, k)
  }

  lemma WasWhole(s: Store, key: Bytes)
    requires Inv(s)
    ensures var was := At(s, key);
            was.Some? ==> was.value.key == key && |was.value.value| >= 2 && was.value.cas <= s.cas
  {
  }

  /** `set` leaves the new item; `add` leaves an old one and else the new one; `replace`, `append` and `prepend` leave
      nothing where nothing was, and else the new item, or the old one with a longer value; `cas` replaces an old one
      that has the number. What is stored has the next number. */
  lemma EachPolicyLeaves(s: Store, item: Item)
    requires Inv(s) && EndsWithCrlf(item.value)
    ensures |item.value| >= 2
    ensures var was, now := At(s, item.key), Some(item.(cas := s.cas + 1));
            && (was.Some? ==> |was.value.value| >= 2)
            && At(AfterStore(s, item, Set), item.key) == now
            && At(AfterStore(s, item, Add), item.key) == (if was.Some? then was else now)
            && At(AfterStore(s, item, Replace), item.key) == (if was.Some? then now else None)
            && At(AfterStore(s, item, Append), item.key)
               == (if was.None? then None
                   else Some(was.value.(value := Payload(was.value.value) + item.value, cas := s.cas + 1)))
            && At(AfterStore(s, item, Prepend), item.key)
               == (if was.None? then None
                   else Some(was.value.(value := Payload(item.value) + was.value.value, cas := s.cas + 1)))
            && At(AfterStore(s, item, Cas), item.key)
               == (if was.Some? && was.value.cas == item.cas then now else was)
  {
    WasWhole(s, item.key);
    PayloadAndCrlf(item.value);
    hide Inv, EndsWithCrlf, Payload;
  }

  /** Of the other keys no command changes anything, and it is answered that the item was stored exactly when the key
      has another item than before. */
  lemma StoredMeansChanged(s: Store, item: Item, policy: Policy)
    requires Inv(s) && EndsWithCrlf(item.value)
    ensures |item.value| >= 2 && (item.key in s.items ==> |s.items[item.key].value| >= 2)
    ensures var z := AfterStore(s, item, policy);
            && OthersKept(s, z, item.key)
            && (Stores(s, item, policy) <==> At(z, item.key) != At(s, item.key))
            && z.cas == if At(z, item.key) == At(s, item.key) then s.cas else s.cas + 1
  {
    WasWhole(s, item.key);
    PayloadAndCrlf(item.value);
    if Stores(s, item, policy) {
      StoredIsWhole(s, item, policy);
    }
    hide Inv, EndsWithCrlf, Payload;
  }

  lemma DeleteLeaves(s: Store, key: Bytes)
    ensures var z := AfterDelete(s, key); At(z, key).None? && OthersKept(s, z, key) && z.cas == s.cas
  {
  }

  // Compare and swap.

  /** What any session does to the store in one critical section. */
  datatype Step = Storing(item: Item, policy: Policy) | Deleting(key: Bytes)

  function Next(s: Store, step: Step): Option<Store> {
    match step
    case Storing(item, policy) =>
      if EndsWithCrlf(item.value) && (item.key in s.items ==> |s.items[item.key].value| >= 2) then
          Some(AfterStore(s, item, policy)) else None
    case Deleting(key) => Some(AfterDelete(s, key))
  }

  predicate Mutates(s: Store, step: Step, k: Bytes) {
    match step
    case Storing(item, policy) => item.key == k && Stores(s, item, policy)
    case Deleting(key) => key == k && k in s.items
  }

  predicate MutatedAlong(s: Store, steps: seq<Step>, k: Bytes)
    decreases |steps|
  {
    steps != [] && (Mutates(s, steps[0], k)
        || (Next(s, steps[0]).Some? && MutatedAlong(Next(s, steps[0]).value, steps[1..], k)))
  }

  lemma StepKeepsInv(s: Store, step: Step)
    requires Inv(s) && Next(s, step).Some?
    ensures Inv(Next(s, step).value) && s.cas <= Next(s, step).value.cas
  {
    if step.Storing? {
      StoreKeepsInv(s, step.item, step.policy);
    }
  }

  lemma NumberGoes(s: Store, step: Step, k: Bytes, cas: nat)
    requires Inv(s) && Next(s, step).Some? && cas <= s.cas && !(k in s.items && s.items[k].cas == cas)
    ensures var z := Next(s, step).value; cas <= z.cas && !(k in z.items && z.items[k].cas == cas)
  {
    hide Inv, EndsWithCrlf, Payload;
  }

  /** Once the number of a key's item is gone it does not come back: numbers only grow. */
  lemma {:induction false} NumberStaysGone(s: Store, steps: seq<Step>, k: Bytes, cas: nat)
    requires Inv(s) && Run(Next, s, steps).Some? && cas <= s.cas && !(k in s.items && s.items[k].cas == cas)
    ensures var z := Run(Next, s, steps).value; !(k in z.items && z.items[k].cas == cas)
    decreases |steps|
  {
    hide Inv, Next;
    if steps != [] {
      StepKeepsInv(s, steps[0]);
      NumberGoes(s, steps[0], k, cas);
      NumberStaysGone(Next(s, steps[0]).value, steps[1..], k, cas);
    }
  }

  /** A key still has the item that was read exactly when nobody has stored or deleted it since. */
  lemma {:induction false} NumberTellsMutation(s: Store, steps: seq<Step>, k: Bytes)
    requires Inv(s) && k in s.items && Run(Next, s, steps).Some?
    ensures var z := Run(Next, s, steps).value;
            k in z.items && z.items[k].cas == s.items[k].cas <==> !MutatedAlong(s, steps, k)
    decreases |steps|
  {
    if steps != [] {
      var t := Next(s, steps[0]).value;
      StepKeepsInv(s, steps[0]);
      if Mutates(s, steps[0], k) {
        NumberStaysGone(t, steps[1..], k, s.items[k].cas);
      } else {
        assert k in t.items && t.items[k] == s.items[k];
        NumberTellsMutation(t, steps[1..], k);
      }
    }
  }

  /** A `kCas` store with a number that was read succeeds exactly when its key was not mutated in between. */
  lemma CasSucceedsIfUnmutated(s: Store, steps: seq<Step>, item: Item)
    requires Inv(s) && item.key in s.items && item.cas == s.items[item.key].cas && Run(Next, s, steps).Some?
    ensures Stores(Run(Next, s, steps).value, item, Cas) <==> !MutatedAlong(s, steps, item.key)
  {
    NumberTellsMutation(s, steps, item.key);
  }

  /** Over every run from the empty store, items sit under their keys, end with a line end, and have numbers of their
      own. */
  lemma EveryRunIsSafe(steps: seq<Step>)
    requires Run(Next, Store(map[], 0), steps).Some?
    ensures Inv(Run(Next, Store(map[], 0), steps).value)
  {
    forall s, step | Inv(s) && Next(s, step).Some?
      ensures Inv(Next(s, step).value)
    {
      StepKeepsInv(s, step);
    }
    hide Run, Next, Inv;
    EmptyInv();
    KeptByRuns(Next, Inv, Store(map[], 0), steps);
  }

  lemma EmptyInv()
    ensures Inv(Store(map[], 0))
  {
  }

  // The shards.

  type Hash = Bytes -> nat

  function ShardOf(hash: Hash, key: Bytes): (n: nat)
    ensures n < SHARDS
  {
    hash(key) % SHARDS
  }

  predicate InShard(shards: seq<set<Item>>, i: nat, item: Item) {
    i < |shards| && item in shards[i]
  }

  /** The sets hold exactly the items of the map, each in the shard of its key. */
  ghost predicate Represents(hash: Hash, shards: seq<set<Item>>, items: map<Bytes, Item>) {
    && |shards| == SHARDS
    && (forall i, item {:trigger InShard(shards, i, item)} ::
          InShard(shards, i, item) <==> item.key in items && items[item.key] == item && i == ShardOf(hash, item.key))
  }

  /** Exchanges the item of one key, if any, for another one, or for none. */
  lemma ShardChanged(hash: Hash, shards: seq<set<Item>>, items: map<Bytes, Item>, key: Bytes, now: seq<set<Item>>,
      changed: map<Bytes, Item>)
    requires Represents(hash, shards, items) && |now| == SHARDS
    requires forall i :: 0 <= i < SHARDS && i != ShardOf(hash, key) ==> now[i] == shards[i]
    requires forall k :: k in changed && k != key ==> k in items && items[k] == changed[k]
    requires forall k :: k in items && k != key ==> k in changed
    requires key in changed ==> changed[key].key == key
    requires var n := ShardOf(hash, key);
             forall item :: item in now[n] <==>
               (item.key != key && item in shards[n]) || (item.key == key && key in changed && changed[key] == item)
    ensures Represents(hash, now, changed)
  {
    forall i: nat, item
      ensures InShard(now, i, item)
          <==> item.key in changed && changed[item.key] == item && i == ShardOf(hash, item.key)
    {
      assert InShard(shards, i, item) <==> item.key in items && items[item.key] == item && i == ShardOf(hash, item.key);
    }
  }

  /** An item on its way into the store: key and value in one array, filled from the front (Item.cc). */
  class ItemBuffer {
    var keylen: nat
    const flags: nat
    const exptime: int
    const valuelen: nat
    var receivedBytes: nat
    const cas: nat
    const data: array<Byte>

    predicate Valid()
      reads this
    {
      2 <= valuelen && keylen <= receivedBytes <= keylen + valuelen <= data.Length
    }

    function Received(): Bytes
      requires Valid()
      reads this, data
    {
      data[..receivedBytes]
    }

    function NeededBytes(): nat
      requires Valid()
      reads this
    {
      keylen + valuelen - receivedBytes
    }

    constructor (key: Bytes, flags: nat, exptime: int, valuelen: nat, cas: nat)
      requires valuelen >= 2
      ensures Valid() && fresh(data) && Received() == key && keylen == |key| && data.Length == |key| + valuelen
      ensures this.flags == flags && this.exptime == exptime && this.valuelen == valuelen && this.cas == cas
    {
      this.keylen, this.flags, this.exptime, this.valuelen, this.cas := |key|, flags, exptime, valuelen, cas;
      receivedBytes := |key|;
      data := new Byte[|key| + valuelen];
      new;
      Copy(0, key);
    }

    /** `memcpy(data_ + at, d, len)`. */
    method Copy(at: nat, d: Bytes)
      requires at + |d| <= data.Length
      modifies data
      ensures data[..at] == old(data[..at]) && data[at..at + |d|] == d && data[at + |d|..] == old(data[at + |d|..])
    {
      for i := 0 to |d|
        invariant data[at..at + i] == d[..i]
        invariant forall k :: 0 <= k < at || at + |d| <= k < data.Length ==> data[k] == old(data[k])
      {
        data[at + i] := d[i];
        assert data[at..at + i + 1] == data[at..at + i] + [d[i]];
      }
      assert d[..|d|] == d;
    }

    method Append(d: Bytes)
      requires Valid() && |d| <= NeededBytes()
      modifies data, this`receivedBytes
      ensures Valid() && Received() == old(Received()) + d
    {
      Copy(receivedBytes, d);
      receivedBytes := receivedBytes + |d|;
      assert data[..receivedBytes] == data[..old(receivedBytes)] + data[old(receivedBytes)..receivedBytes];
    }

    /** `resetKey`, for the needle that lookups reuse: what was received is the new key. */
    method ResetKey(k: Bytes)
      requires Valid() && |k| + valuelen <= data.Length
      modifies this`keylen, this`receivedBytes, data
      ensures Valid() && keylen == |k| && Received() == k
    {
      keylen, receivedBytes := |k|, |k|;
      Copy(0, k);
    }

    predicate EndsWithCRLF()
      requires Valid()
      reads this, data
    {
      receivedBytes == keylen + valuelen && data[keylen + valuelen - 2] == CR && data[keylen + valuelen - 1] == LF
    }

    /** The item as the store sees it. */
    function Frozen(): Item
      requires Valid() && NeededBytes() == 0
      reads this, data
    {
      Item(data[..keylen], flags, exptime, data[keylen..keylen + valuelen], cas)
    }

    lemma IsComplete(key: Bytes, value: Bytes)
      requires Valid() && keylen == |key| && Received() == key + value && |value| == valuelen
      ensures NeededBytes() == 0 && Frozen() == Item(key, flags, exptime, value, cas)
      ensures EndsWithCRLF() <==> EndsWithCrlf(value)
    {
      assert data[..keylen] == Received()[..keylen] == key;
      assert data[keylen..keylen + valuelen] == Received()[keylen..] == value;
      assert value[valuelen - 2..] == [value[valuelen - 2], value[valuelen - 1]];
    }
  }

  class Server {
    const hash: Hash
    var shards: seq<set<Item>>
    var cas: nat

    constructor (hash: Hash)
      ensures this.hash == hash && Represents(hash, shards, map[]) && cas == 0
    {
      this.hash := hash;
      shards := seq(SHARDS, _ => {});
      cas := 0;
    }

    /** `find` in the set of the key's shard. */
    method Find(key: Bytes, ghost items: map<Bytes, Item>) returns (found: Option<Item>)
      requires Represents(hash, shards, items)
      ensures found == if key in items && items[key].key == key then Some(items[key]) else None
    {
      var n := ShardOf(hash, key);
      ghost var expected := if key in items && items[key].key == key then Some(items[key]) else None;
      if expected.Some? {
        assert InShard(shards, n, expected.value);
      }
      var shard := shards[n];
      found := None;
      while shard != {} && found.None?
        invariant shard <= shards[n]
        invariant found.None? && expected.Some? ==> expected.value in shard
        invariant found.Some? ==> found == expected
        decreases |shard|, found.None?
      {
        var x :| x in shard;
        assert InShard(shards, n, x);
        if x.key == key {
          found := Some(x);
        }
        shard := shard - {x};
      }
    }

    method Erase(item: Item)
      modifies this
      requires |shards| == SHARDS
      ensures cas == old(cas)
          && shards == old(shards)[ShardOf(hash, item.key) := old(shards)[ShardOf(hash, item.key)] - {item}]
    {
      var n := ShardOf(hash, item.key);
      shards := shards[n := shards[n] - {item}];
    }

    method Insert(item: Item)
      modifies this
      requires |shards| == SHARDS
      ensures cas == old(cas)
          && shards == old(shards)[ShardOf(hash, item.key) := old(shards)[ShardOf(hash, item.key)] + {item}]
    {
      var n := ShardOf(hash, item.key);
      shards := shards[n := shards[n] + {item}];
    }

    /** Erases the old item of the key, if there is one, and inserts the new one. */
    method Put(was: Option<Item>, item: Item, ghost items: map<Bytes, Item>)
      requires Represents(hash, shards, items)
      requires was == if item.key in items then Some(items[item.key]) else None
      requires was.Some? ==> was.value.key == item.key
      modifies this
      ensures cas == old(cas) && Represents(hash, shards, items[item.key := item])
    {
      ghost var n := ShardOf(hash, item.key);
      ghost var before := shards;
      if was.Some? {
        Erase(was.value);
      }
      Insert(item);
      forall x
        ensures x in shards[n] <==> (x.key != item.key && x in before[n]) || (x.key == item.key && x == item)
      {
        assert InShard(before, n, x) <==> x.key in items && items[x.key] == x && n == ShardOf(hash, x.key);
      }
      ShardChanged(hash, before, items, item.key, shards, items[item.key := item]);
    }

    /** The item that `kAppend` and `kPrepend` make: a payload and a value in one new buffer. */
    method Joined(key: Bytes, was: Item, front: Bytes, back: Bytes) returns (item: Item)
      requires EndsWithCrlf(back)
      ensures item == Item(key, was.flags, was.exptime, front + back, cas)
    {
      var newItem := new ItemBuffer(key, was.flags, was.exptime, |front| + |back|, cas);
      newItem.Append(front);
      newItem.Append(back);
      assert newItem.Received() == key + (front + back);
      newItem.IsComplete(key, front + back);
      assert newItem.EndsWithCRLF();
      item := newItem.Frozen();
    }

    /** `storeItem`. */
    method StoreItem(item: Item, policy: Policy, ghost s: Store) returns (stored: bool, existed: bool, ghost t: Store)
      requires Represents(hash, shards, s.items) && cas == s.cas && Inv(s) && EndsWithCrlf(item.value)
      modifies this
      ensures t == AfterStore(s, item, policy) && Represents(hash, shards, t.items) && cas == t.cas && Inv(t)
      ensures (stored <==> Stores(s, item, policy)) && (existed <==> item.key in s.items)
      ensures (stored <==> At(t, item.key) != At(s, item.key)) && OthersKept(s, t, item.key)
    {
      hide Represents, Inv, EndsWithCrlf, Payload, OthersKept, At;
      StoreKeepsInv(s, item, policy);
      StoredMeansChanged(s, item, policy);
      PayloadAndCrlf(item.value);
      if item.key in s.items {
        HasKey(s, item.key);
        PayloadsConcatenate(s, item);
      }
      t := AfterStore(s, item, policy);
      var it := Find(item.key, s.items);
      existed := it.Some?;
      stored := true;
      match policy {
        case Set =>
          cas := cas + 1;
          Put(it, item.(cas := cas), s.items);
        case Add =>
          if existed {
            stored := false;
          } else {
            cas := cas + 1;
            Put(it, item.(cas := cas), s.items);
          }
        case Replace =>
          if existed {
            cas := cas + 1;
            Put(it, item.(cas := cas), s.items);
          } else {
            stored := false;
          }
        case Append =>
          if existed {
            cas := cas + 1;
            var newItem := Joined(item.key, it.value, Payload(it.value.value), item.value);
            Put(it, newItem, s.items);
          } else {
            stored := false;
          }
        case Prepend =>
          if existed {
            cas := cas + 1;
            var newItem := Joined(item.key, it.value, Payload(item.value), it.value.value);
            Put(it, newItem, s.items);
          } else {
            stored := false;
          }
        case Cas =>
          if existed && it.value.cas == item.cas {
            cas := cas + 1;
            Put(it, item.(cas := cas), s.items);
          } else {
            stored := false;
          }
      }
    }

    /** `getItem`. */
    method GetItem(key: Bytes, ghost s: Store) returns (found: Option<Item>)
      requires Represents(hash, shards, s.items) && Inv(s)
      ensures found == if key in s.items then Some(s.items[key]) else None
    {
      found := Find(key, s.items);
    }

    /** `deleteItem`. */
    method DeleteItem(key: Bytes, ghost s: Store) returns (deleted: bool)
      requires Represents(hash, shards, s.items) && Inv(s) && cas == s.cas
      modifies this
      ensures Represents(hash, shards, AfterDelete(s, key).items) && cas == s.cas && (deleted <==> key in s.items)
      ensures At(AfterDelete(s, key), key).None? && OthersKept(s, AfterDelete(s, key), key)
    {
      DeleteLeaves(s, key);
      hide OthersKept, At;
      var it := Find(key, s.items);
      deleted := it.Some?;
      ghost var n, before := ShardOf(hash, key), shards;
      if deleted {
        Erase(it.value);
      }
      forall x
        ensures x in shards[n] <==> x.key != key && x in before[n]
      {
        assert InShard(before, n, x) <==> x.key in s.items && s.items[x.key] == x && n == ShardOf(hash, x.key);
      }
      ShardChanged(hash, before, s.items, key, shards, AfterDelete(s, key).items);
    }
  }
}
