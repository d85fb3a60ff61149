/** The sharded map with random eviction of plugin/pkg/cache/cache.go. */
module ShardStore {
  import opened Wrappers

  const SHARDS := 256

  /** The room New gives each shard. */
  function ShardRoom(cap: int): (n: nat)
    ensures n >= 4 && SHARDS * n >= cap - SHARDS
  {
    if cap / SHARDS < 4 then 4 else cap / SHARDS
  }

  // ----- what the stores do, on maps -----

  ghost function KeysIn<T>(m: map<nat, T>, i: nat): (s: set<nat>) {
    set k | k in m && k % SHARDS == i
  }

  ghost function KeysBelow<T>(m: map<nat, T>, i: nat): (s: set<nat>) {
    set k | k in m && k % SHARDS < i
  }

  /** No shard is over its room. */
  ghost predicate Bounded<T>(m: map<nat, T>, room: nat) {
    forall i: nat :: i < SHARDS ==> |KeysIn(m, i)| <= room
  }

  /** A full shard gives up one of its keys, any one; a shard with room gives up none. */
  ghost predicate Evicts<T>(m: map<nat, T>, room: nat, key: nat, evicted: Option<nat>) {
    if |KeysIn(m, key % SHARDS)| + 1 > room
    then evicted.Some? && evicted.value in KeysIn(m, key % SHARDS)
    else evicted.None?
  }

  function Without<T>(m: map<nat, T>, evicted: Option<nat>): (m': map<nat, T>) {
    if evicted.Some? then m - {evicted.value} else m
  }

  function OnAdd<T>(m: map<nat, T>, evicted: Option<nat>, key: nat, el: T): (m': map<nat, T>) {
    Without(m, evicted)[key := el]
  }

  /** Only the shard of the key changes: it loses what is evicted and gains the key. */
  lemma {:induction false} KeysAfterAdd<T>(m: map<nat, T>, evicted: Option<nat>, key: nat, el: T, i: nat)
    requires evicted.Some? ==> evicted.value in m && evicted.value % SHARDS == key % SHARDS
    ensures KeysIn(OnAdd(m, evicted, key, el), i) ==
            if i != key % SHARDS then KeysIn(m, i)
            else (if evicted.Some? then KeysIn(m, i) - {evicted.value} else KeysIn(m, i)) + {key}
  {}

  lemma AddKeepsBound<T>(m: map<nat, T>, room: nat, evicted: Option<nat>, key: nat, el: T)
    requires Bounded(m, room) && room > 0 && Evicts(m, room, key, evicted)
    ensures Bounded(OnAdd(m, evicted, key, el), room)
  {
    forall i: nat | i < SHARDS ensures |KeysIn(OnAdd(m, evicted, key, el), i)| <= room {
      var before := KeysIn(m, i);
      assert |before| <= room;
      KeysAfterAdd(m, evicted, key, el, i);
      hide KeysIn, OnAdd;
      if i == key % SHARDS && evicted.Some? {
        assert |before - {evicted.value}| == |before| - 1;
      }
    }
  }

  lemma {:induction false} BoundedBelow<T>(m: map<nat, T>, room: nat, i: nat)
    requires Bounded(m, room) && i <= SHARDS
    ensures |KeysBelow(m, i)| <= i * room
  {
    if i == 0 {
      assert KeysBelow(m, 0) == {};
    } else {
      BoundedBelow(m, room, i - 1);
      SplitOff(m, i - 1);
      assert i * room == (i - 1) * room + room;
    }
  }

  lemma SplitOff<T>(m: map<nat, T>, i: nat)
    ensures |KeysBelow(m, i + 1)| == |KeysBelow(m, i)| + |KeysIn(m, i)|
  {
    assert KeysBelow(m, i + 1) == KeysBelow(m, i) + KeysIn(m, i);
    assert KeysBelow(m, i) !! KeysIn(m, i);
  }

  /** Hence the store as a whole holds at most 256 times the room of a shard. */
  lemma StoreBound<T>(m: map<nat, T>, room: nat)
    requires Bounded(m, room)
    ensures |m| <= SHARDS * room
  {
    BoundedBelow(m, room, SHARDS);
    assert KeysBelow(m, SHARDS) == m.Keys;
  }

  // ----- in memory -----

  class Shard<T> {
    var items: map<nat, T>
    const size: nat

    constructor (size: nat)
      ensures items == map[] && this.size == size
    {
      items := map[];
      this.size := size;
    }

    method Add(key: nat, el: T) returns (ghost evicted: Option<nat>)
      modifies this
      ensures items == OnAdd(old(items), evicted, key, el)
      ensures if |old(items)| + 1 > size && old(items) != map[]
              then evicted.Some? && evicted.value in old(items) else evicted.None?
    {
      evicted := None;
      var l := Len();
      if l + 1 > size {
        evicted := Evict();
      }
      items := items[key := el];
    }

    method Remove(key: nat)
      modifies this
      ensures items == old(items) - {key}
    {
      items := items - {key};
    }

    method Evict() returns (ghost evicted: Option<nat>)
      modifies this
      ensures items == Without(old(items), evicted)
      ensures if old(items) == map[] then evicted.None? else evicted.Some? && evicted.value in old(items)
    {
      if items == map[] {
        return None;
      }
      assert exists k :: k in items.Keys by {
        assert items.Keys != {};
      }
      var key :| key in items.Keys;
      Remove(key);
      evicted := Some(key);
    }

    method Get(key: nat) returns (el: Option<T>)
      ensures el == if key in items then Some(items[key]) else None
    {
      el := if key in items then Some(items[key]) else None;
    }

    method Len() returns (l: nat)
      ensures l == |items|
    {
      l := |items|;
    }
  }

  class Cache<T> {
    const shards: seq<Shard<T>>
    /** What the shards hold together. */
    ghost var contents: map<nat, T>
    ghost const room: nat

    ghost predicate Valid()
      reads this, shards
    {
      && |shards| == SHARDS && room > 0
      && (forall i, j :: 0 <= i < j < |shards| ==> shards[i] != shards[j])
      && (forall i :: 0 <= i < |shards| ==> Holds(i))
      && Bounded(contents, room)
    }

    /** Shard i holds exactly the keys that fall to it. */
    ghost predicate Holds(i: nat)
      requires i < |shards|
      reads this, shards
    {
      && shards[i].size == room
      && (forall k :: k in shards[i].items <==> k in contents && k % SHARDS == i)
      && (forall k :: k in shards[i].items ==> shards[i].items[k] == contents[k])
    }

    constructor (cap: int)
      ensures Valid() && contents == map[] && room == ShardRoom(cap)
      ensures forall s :: s in shards ==> fresh(s)
    {
      var ssize := cap / SHARDS;
      if ssize < 4 {
        ssize := 4;
      }
      var made: seq<Shard<T>> := [];
      var i := 0;
      while i < SHARDS
        invariant 0 <= i <= SHARDS && |made| == i
        invariant forall j :: 0 <= j < i ==> fresh(made[j]) && made[j].size == ssize && made[j].items == map[]
        invariant forall j, k :: 0 <= j < k < i ==> made[j] != made[k]
      {
        var s := new Shard<T>(ssize);
        made := made + [s];
        i := i + 1;
      }
      shards := made;
      contents := map[];
      room := ssize;
      new;
      assert forall i: nat :: KeysIn(contents, i) == {};
    }

    lemma ShardIs(i: nat)
      requires Valid() && i < SHARDS
      ensures shards[i].items.Keys == KeysIn(contents, i) && |shards[i].items| == |KeysIn(contents, i)|
    {
      assert Holds(i);
    }

    method Add(key: nat, el: T) returns (ghost evicted: Option<nat>)
      requires Valid()
      modifies this`contents, shards[key % SHARDS]
      ensures Valid() && Evicts(old(contents), room, key, evicted)
      ensures contents == OnAdd(old(contents), evicted, key, el)
    {
      var n := key % SHARDS;
      ShardIs(n);
      assert Holds(n);
      evicted := shards[n].Add(key, el);
      contents := OnAdd(contents, evicted, key, el);
      AddKeepsBound(old(contents), room, evicted, key, el);
      forall i | 0 <= i < |shards| ensures Holds(i) {
        assert old(Holds(i));
      }
    }

    method Get(key: nat) returns (el: Option<T>)
      requires Valid()
      ensures el == if key in contents then Some(contents[key]) else None
    {
      assert Holds(key % SHARDS);
      el := shards[key % SHARDS].Get(key);
    }

    method Remove(key: nat)
      requires Valid()
      modifies this`contents, shards[key % SHARDS]
      ensures Valid() && contents == old(contents) - {key}
    {
      var n := key % SHARDS;
      assert Holds(n);
      shards[n].Remove(key);
      contents := contents - {key};
      forall i | 0 <= i < |shards| ensures Holds(i) {
        assert old(Holds(i));
      }
      forall i: nat | i < SHARDS ensures |KeysIn(contents, i)| <= room {
        assert KeysIn(contents, i) == KeysIn(old(contents), i) - {key};
        assert |KeysIn(old(contents), i)| <= room;
      }
    }

    /** The number of elements, counted shard by shard. */
    method Len() returns (l: nat)
      requires Valid()
      ensures l == |contents| <= SHARDS * room
    {
      l := 0;
      assert KeysBelow(contents, 0) == {};
      for i := 0 to SHARDS
        invariant l == |KeysBelow(contents, i)|
      {
        ShardIs(i);
        SplitOff(contents, i);
        var n := shards[i].Len();
        l := l + n;
      }
      assert KeysBelow(contents, SHARDS) == contents.Keys;
      StoreBound(contents, room);
    }
  }
}
