/** The hybrid table: a dense array for small integer keys, a hash for the rest, a
    count, the next integer key, and a cached order of the keys. */
module Table {
  import opened Wrappers
  import opened NanBox
  import opened Probing

  // ---- the array part ----

  /** A zero word is an empty slot. */
  function SlotMap(ss: seq<Word>): map<Key, Word> {
    map k | 0 <= k < |ss| && ss[k] != 0 :: IntKey(k) := ss[k]
  }

  /** Only keys below the limit are ever written to the array. */
  predicate ArraySound(ss: seq<Word>) {
    forall k | MAX_ARRAY <= k < |ss| :: ss[k] == 0
  }

  lemma SlotMapStore(ss: seq<Word>, k: nat, v: Word)
    requires k < |ss|
    ensures SlotMap(ss[k := v]) == if v == 0 then SlotMap(ss) - {IntKey(k)} else SlotMap(ss)[IntKey(k) := v]
    ensures IntKey(k) in SlotMap(ss) <==> ss[k] != 0
  {
    var m, m' := SlotMap(ss), SlotMap(ss[k := v]);
    var t := if v == 0 then m - {IntKey(k)} else m[IntKey(k) := v];
    forall x | x in m' ensures x in t && m'[x] == t[x] {}
    forall x | x in t ensures x in m' {}
    SameMap(m', t);
  }

  lemma SlotMapGrow(ss: seq<Word>, ss': seq<Word>)
    requires ss <= ss' && forall k | |ss| <= k < |ss'| :: ss'[k] == 0
    ensures SlotMap(ss') == SlotMap(ss)
  {
    SameMap(SlotMap(ss'), SlotMap(ss));
  }

  /** What a table maps: its array and its hash, which share no key. */
  function TableMap(ss: seq<Word>, bs: seq<Entry>): map<Key, Word> {
    SlotMap(ss) + HashMap(bs)
  }

  lemma PartsDisjoint(ss: seq<Word>, bs: seq<Entry>)
    requires ArraySound(ss) && HashSound(bs)
    ensures forall k | k in SlotMap(ss) :: IsArrayKey(k) && k !in HashMap(bs)
    ensures forall k | k in HashMap(bs) :: IsHashKey(k)
    ensures |TableMap(ss, bs)| == |SlotMap(ss)| + |HashMap(bs)|
  {
    forall k | k in HashMap(bs) ensures IsHashKey(k) {
      var p := WhereHeld(bs, k);
    }
    assert TableMap(ss, bs).Keys == SlotMap(ss).Keys + HashMap(bs).Keys;
    assert SlotMap(ss).Keys !! HashMap(bs).Keys;
  }

  /** Which part a lookup has to consult. */
  lemma LookupTells(ss: seq<Word>, bs: seq<Entry>, key: Key)
    requires ArraySound(ss) && HashSound(bs) && IsOccupied(key)
    ensures var m := TableMap(ss, bs);
            if IsArrayKey(key) && key.n < |ss|
            then (key in m <==> ss[key.n] != 0) && (key in m ==> m[key] == ss[key.n])
            else (key in m <==> key in HashMap(bs)) && (key in m ==> m[key] == HashMap(bs)[key])
    ensures key.IntKey? && MAX_ARRAY <= key.n < |ss| ==> ss[key.n] == 0
  {
    PartsDisjoint(ss, bs);
  }

  // ---- order ----

  predicate NoRepeats(ks: seq<Key>) {
    ks == [] || (ks[|ks| - 1] !in ks[..|ks| - 1] && NoRepeats(ks[..|ks| - 1]))
  }

  lemma {:induction false} NoRepeatsMeans(ks: seq<Key>)
    ensures NoRepeats(ks) <==> forall i, j | 0 <= i < j < |ks| :: ks[i] != ks[j]
  {
    if ks != [] {
      var init := ks[..|ks| - 1];
      NoRepeatsMeans(init);
      if ks[|ks| - 1] in init {
        var i :| 0 <= i < |init| && init[i] == ks[|ks| - 1];
        assert ks[i] == ks[|ks| - 1];
      } else if !NoRepeats(init) {
        var i, j :| 0 <= i < j < |init| && init[i] == init[j];
        assert ks[i] == ks[j];
      }
    }
  }

  /** The integer keys of the array, ascending. */
  function ArrayKeys(ss: seq<Word>, n: nat): seq<Key>
    requires n <= |ss|
  {
    if n == 0 then []
    else if ss[n - 1] != 0 then ArrayKeys(ss, n - 1) + [IntKey(n - 1)]
    else ArrayKeys(ss, n - 1)
  }

  /** A cached order lists every key once: the array's first, ascending, then the
      hash's in some order. */
  predicate OrderSound(order: seq<Key>, ss: seq<Word>, bs: seq<Entry>) {
    var n := |ArrayKeys(ss, |ss|)|;
    && n <= |order| && order[..n] == ArrayKeys(ss, |ss|) && NoRepeats(order[n..])
    && (set k | k in order[n..]) == HashMap(bs).Keys
  }

  lemma {:induction false} ArrayKeysAre(ss: seq<Word>, n: nat)
    requires n <= |ss|
    ensures NoRepeats(ArrayKeys(ss, n))
    ensures forall k :: k in ArrayKeys(ss, n) <==> k.IntKey? && 0 <= k.n < n && ss[k.n] != 0
  {
    if n > 0 { ArrayKeysAre(ss, n - 1); }
  }

  lemma {:induction false} NoRepeatsJoin(a: seq<Key>, b: seq<Key>)
    requires NoRepeats(a) && NoRepeats(b) && forall k | k in b :: k !in a
    ensures NoRepeats(a + b)
  {
    if b == [] {
      assert a + b == a;
    } else {
      var init := b[..|b| - 1];
      NoRepeatsJoin(a, init);
      assert (a + b)[..|a + b| - 1] == a + init;
    }
  }

  /** Overwriting a used slot does not change which are used. */
  lemma {:induction false} ArrayKeysStore(ss: seq<Word>, k: nat, v: Word, n: nat)
    requires k < |ss| && n <= |ss| && ss[k] != 0 && v != 0
    ensures ArrayKeys(ss[k := v], n) == ArrayKeys(ss, n)
  {
    if n > 0 { ArrayKeysStore(ss, k, v, n - 1); }
  }

  lemma ArrayKeySet(ss: seq<Word>)
    ensures (set k | k in ArrayKeys(ss, |ss|)) == SlotMap(ss).Keys && NoRepeats(ArrayKeys(ss, |ss|))
  {
    ArrayKeysAre(ss, |ss|);
  }

  lemma ListingsJoin(a: seq<Key>, b: seq<Key>, ka: set<Key>, kb: set<Key>)
    requires NoRepeats(a) && NoRepeats(b) && (set k | k in a) == ka && (set k | k in b) == kb && ka !! kb
    ensures NoRepeats(a + b) && (set k | k in a + b) == ka + kb
  {
    forall k | k in b ensures k !in a {
      assert k in kb && (k in a ==> k in ka);
    }
    NoRepeatsJoin(a, b);
    assert (set k | k in a + b) == (set k | k in a) + (set k | k in b);
  }

  /** So a cached order is a duplicate-free permutation of the keys. */
  lemma OrderIsPermutation(order: seq<Key>, ss: seq<Word>, bs: seq<Entry>)
    requires OrderSound(order, ss, bs) && ArraySound(ss) && HashSound(bs)
    ensures NoRepeats(order) && (set k | k in order) == TableMap(ss, bs).Keys
  {
    var a := ArrayKeys(ss, |ss|);
    ArrayKeySet(ss);
    PartsDisjoint(ss, bs);
    ListingsJoin(a, order[|a|..], SlotMap(ss).Keys, HashMap(bs).Keys);
    assert order == a + order[|a|..];
  }

  // ---- capacities ----

  predicate IsPowerOfTwo(n: nat) {
    n == 1 || (n > 0 && n % 2 == 0 && IsPowerOfTwo(n / 2))
  }

  predicate KeysBelow(m: map<Key, Word>, next: int) {
    next >= 0 && forall k | k in m && k.IntKey? :: k.n < next
  }

  /** The invariant of a table: its parts are well formed, at most three quarters of a
      power of two of buckets are occupied, the count is the size of the map, every
      integer key is below the next one, and a cached order lists the keys. */
  predicate TableSound(ss: seq<Word>, bs: seq<Entry>, count: nat, next: int, order: Option<seq<Key>>) {
    && ArraySound(ss) && HashSound(bs) && |bs| >= 4 && IsPowerOfTwo(|bs|) && 4 * |HashMap(bs)| <= 3 * |bs|
    && count == |TableMap(ss, bs)| && KeysBelow(TableMap(ss, bs), next)
    && (order.Some? ==> OrderSound(order.value, ss, bs))
  }

  class BblTable {
    var buckets: array<Entry>
    var slots: array<Word>
    var count: nat
    var nextIntKey: int
    var order: Option<seq<Key>>

    ghost function Contents(): map<Key, Word>
      reads this`buckets, this`slots, buckets, slots
    {
      TableMap(slots[..], buckets[..])
    }

    /** Array and hash by themselves, whatever is counted. */
    ghost predicate PartsSound()
      reads this`buckets, this`slots, buckets, slots
    {
      ArraySound(slots[..]) && HashSound(buckets[..])
    }

    ghost predicate Valid()
      reads this, buckets, slots
    {
      TableSound(slots[..], buckets[..], count, nextIntKey, order)
    }

    constructor ()
      ensures Valid() && Contents() == map[] && nextIntKey == 0 && slots.Length == 0 && fresh(buckets) && fresh(slots)
    {
      buckets := new Entry[4](_ => Entry(EmptyKey, 0));
      slots := new Word[0];
      count, nextIntKey, order := 0, 0, None;
      new;
      EmptyMap(buckets[..]);
      assert IsPowerOfTwo(2);
      assert SlotMap(slots[..]) == map[];
    }

    /** Integer keys from the array limit up to the array's size are looked up in the
        array although they are stored in the hash. */
    predicate Shadowed(key: Key)
      reads this`slots
    {
      key.IntKey? && MAX_ARRAY <= key.n < slots.Length
    }

    /** Right for every key but a shadowed one, which is never found. */
    method Get(key: Key) returns (r: Option<Word>)
      requires Valid() && IsOccupied(key)
      ensures r == if !Shadowed(key) && key in Contents() then Some(Contents()[key]) else None
    {
      LookupTells(slots[..], buckets[..], key);
      if key.IntKey? && 0 <= key.n < slots.Length {
        var v := slots[key.n];
        return if v != 0 then Some(v) else None;
      }
      if count == 0 { return None; }
      var found, p := FindEntry(buckets, key);
      SearchTells(buckets[..], key, found, p);
      if !found || !IsOccupied(buckets[p].key) { return None; }
      r := Some(buckets[p].val);
    }

    method Has(key: Key) returns (r: bool)
      requires Valid() && IsOccupied(key)
      ensures r <==> !Shadowed(key) && key in Contents()
    {
      LookupTells(slots[..], buckets[..], key);
      if key.IntKey? && 0 <= key.n < slots.Length { return slots[key.n] != 0; }
      if count == 0 { return false; }
      var found, p := FindEntry(buckets, key);
      SearchTells(buckets[..], key, found, p);
      r := found && IsOccupied(buckets[p].key);
    }
 
    /** A longer array with the old one's slots. */
    method ArrayGrow(minSize: nat)
      requires slots.Length < minSize
      modifies this`slots
      ensures fresh(slots) && slots.Length == GrownLength(old(slots.Length), minSize) && old(slots[..]) <= slots[..]
      ensures forall k | old(slots.Length) <= k < slots.Length :: slots[k] == 0
    {
      var newSize := NewLength(slots.Length, minSize);
      var newArr := new Word[newSize](_ => 0);
      forall k | 0 <= k < slots.Length { newArr[k] := slots[k]; }
      slots := newArr;
    }

    /** Rehashes every entry into buckets twice as many, or eight. */
    method Grow()
      requires HashSound(buckets[..]) && buckets.Length >= 4 && IsPowerOfTwo(buckets.Length)
      modifies this`buckets
      ensures fresh(buckets) && buckets.Length == (if old(buckets.Length) < 8 then 8 else 2 * old(buckets.Length))
      ensures HashSound(buckets[..]) && IsPowerOfTwo(buckets.Length) && HashMap(buckets[..]) == HashMap(old(buckets[..]))
    {
      var newCap := if buckets.Length < 8 then 8 else buckets.Length * 2;
      assert IsPowerOfTwo(4) && IsPowerOfTwo(newCap);
      var newBuckets := new Entry[newCap](_ => Entry(EmptyKey, 0));
      EmptyMap(newBuckets[..]);
      RehashAll(newBuckets);
      buckets := newBuckets;
    }

    method RehashAll(newBuckets: array<Entry>)
      requires newBuckets != buckets && HashSound(buckets[..]) && buckets.Length < newBuckets.Length
      requires HashSound(newBuckets[..]) && HashMap(newBuckets[..]) == map[]
      modifies newBuckets
      ensures HashSound(newBuckets[..]) && HashMap(newBuckets[..]) == HashMap(buckets[..])
    {
      ghost var bs := buckets[..];
      for i := 0 to buckets.Length
        invariant buckets[..] == bs && HashSound(newBuckets[..]) && HashMap(newBuckets[..]) == HashMap(bs[..i])
      {
        assert bs[..i + 1][..i] == bs[..i];
        if IsOccupied(buckets[i].key) {
          Rehash(newBuckets, buckets[i], bs, i);
        }
      }
      assert bs[..|bs|] == bs;
    }

    /** One entry into the new buckets, which always have room for it. */
    method Rehash(newBuckets: array<Entry>, e: Entry, ghost bs: seq<Entry>, ghost i: nat)
      requires i < |bs| < newBuckets.Length && bs[i] == e && IsOccupied(e.key) && HashSound(bs)
      requires HashSound(newBuckets[..]) && HashMap(newBuckets[..]) == HashMap(bs[..i])
      modifies newBuckets
      ensures HashSound(newBuckets[..]) && HashMap(newBuckets[..]) == HashMap(bs[..i])[e.key := e.val]
    {
      var found, p := FindEntry(newBuckets, e.key);
      MapNotLarger(bs[..i]);
      if !found {
        FullMap(newBuckets[..]);
        assert false;
      }
      StoreSound(newBuckets[..], e.key, e.val, p);
      StoreMap(newBuckets[..], e.key, e.val, p);
      ghost var after := newBuckets[..][p := e];
      newBuckets[p] := e;
      assert newBuckets[..] == after;
    }
 
    method WriteSlot(k: nat, val: Word)
      requires k < slots.Length
      modifies this`count, this`order, this`nextIntKey, slots
      ensures slots[..] == old(slots[..])[k := val] && buckets[..] == old(buckets[..])
      ensures var isNew := old(slots[k]) == 0;
              && count == (if isNew then old(count) + 1 else old(count))
              && order == (if isNew then None else old(order))
              && nextIntKey == NextAfter(old(nextIntKey), IntKey(k))
    {
      var isNew := slots[k] == 0;
      slots[k] := val;
      if isNew {
        count := count + 1;
        order := None;
      }
      if k >= nextIntKey { nextIntKey := k + 1; }
    }

    /** The array has a slot for the key, grown if need be. */
    method MakeSlot(k: nat)
      requires Valid() && k < MAX_ARRAY
      modifies this`slots
      ensures (slots == old(slots) || fresh(slots)) && k < slots.Length
      ensures slots.Length == LengthAfter(old(slots.Length), IntKey(k))
      ensures buckets[..] == old(buckets[..]) && SlotReady(slots[..], buckets[..], k, count, nextIntKey, order)
      ensures TableMap(slots[..], buckets[..]) == old(TableMap(slots[..], buckets[..]))
    {
      ghost var ss, bs := slots[..], buckets[..];
      LengthForSlot(|ss|, k);
      if k >= slots.Length {
        ArrayGrow(k + 1);
        GrownSlots(ss, slots[..], bs);
      }
    }

    method SetArray(k: nat, val: Word)
      requires Valid() && k < MAX_ARRAY
      modifies this, slots
      ensures buckets == old(buckets) && (slots == old(slots) || fresh(slots))
      ensures val != 0 ==> Valid() && Contents() == old(Contents())[IntKey(k) := val]
      ensures val == 0 ==> count != |Contents()| && Contents() == old(Contents()) - {IntKey(k)} && PartsSound()
      ensures nextIntKey == NextAfter(old(nextIntKey), IntKey(k)) && slots.Length == LengthAfter(old(slots.Length), IntKey(k))
    {
      MakeSlot(k);
      StoredSlot(slots[..], buckets[..], k, val, count, nextIntKey, order);
      WriteSlot(k, val);
    }

    method WriteEntry(p: nat, key: Key, val: Word)
      requires p < buckets.Length
      modifies this`count, this`order, this`nextIntKey, buckets
      ensures buckets[..] == old(buckets[..])[p := Entry(key, val)] && slots[..] == old(slots[..])
      ensures var isNew := !IsOccupied(old(buckets[p].key));
              && count == (if isNew then old(count) + 1 else old(count))
              && order == (if isNew then None else old(order))
              && nextIntKey == NextAfter(old(nextIntKey), key)
    {
      var isNew := !IsOccupied(buckets[p].key);
      buckets[p] := Entry(key, val);
      if isNew {
        count := count + 1;
        order := None;
      }
      if key.IntKey? && key.n >= nextIntKey { nextIntKey := key.n + 1; }
    }

    /** Grows when one more entry might fill more than three quarters; the test counts
        array entries as well and ignores tombstones. */
    method MakeRoom()
      requires Valid()
      modifies this`buckets
      ensures buckets == old(buckets) || fresh(buckets)
      ensures HashSound(buckets[..]) && HashMap(buckets[..]) == HashMap(old(buckets[..]))
      ensures buckets.Length >= 4 && IsPowerOfTwo(buckets.Length) && 4 * (|HashMap(buckets[..])| + 1) <= 3 * buckets.Length
      ensures slots[..] == old(slots[..])
    {
      RoomFor(slots[..], buckets[..], count, nextIntKey, order);
      if count + 1 > buckets.Length * 3 / 4 { Grow(); }
    }

    method SetHash(key: Key, val: Word)
      requires Valid() && IsHashKey(key)
      modifies this, buckets
      ensures slots == old(slots) && (buckets == old(buckets) || fresh(buckets))
      ensures Valid() && Contents() == old(Contents())[key := val]
      ensures nextIntKey == NextAfter(old(nextIntKey), key)
    {
      ghost var ss, bs0 := slots[..], buckets[..];
      MakeRoom();
      ghost var bs := buckets[..];
      var found, p := FindEntry(buckets, key);
      if !found {
        FullMap(bs);
        assert false;
      }
      StoredEntry(ss, bs0, bs, key, val, p, count, nextIntKey, order);
      WriteEntry(p, key, val);
    }

    /** Stores a value. A zero word stored under an array key reads as an empty slot, so
        that the key is gone, and leaves the count wrong; every other store is a map
        update. */
    method Set(key: Key, val: Word)
      requires Valid() && IsOccupied(key)
      modifies this, buckets, slots
      ensures (buckets == old(buckets) || fresh(buckets)) && (slots == old(slots) || fresh(slots))
      ensures Valid() <==> !(IsArrayKey(key) && val == 0)
      ensures Contents() == if IsArrayKey(key) && val == 0 then old(Contents()) - {key} else old(Contents())[key := val]
      ensures PartsSound() && (!key.IntKey? ==> nextIntKey == old(nextIntKey))
      ensures key.IntKey? ==> nextIntKey == if key.n + 1 > old(nextIntKey) then key.n + 1 else old(nextIntKey)
      ensures slots.Length == LengthAfter(old(slots.Length), key) && (!IsArrayKey(key) ==> slots == old(slots))
    {
      if key.IntKey? && 0 <= key.n < 1_000_000 {
        SetArray(key.n, val);
      } else {
        SetHash(key, val);
      }
    }

    /** Removes a key, shadowed or not. */
    method Del(key: Key) returns (r: bool)
      requires Valid() && IsOccupied(key)
      modifies this, buckets, slots
      ensures buckets == old(buckets) && slots == old(slots)
      ensures Valid() && Contents() == old(Contents()) - {key} && (r <==> key in old(Contents()))
      ensures nextIntKey == old(nextIntKey)
    {
      LookupTells(slots[..], buckets[..], key);
      if key.IntKey? && 0 <= key.n < slots.Length && slots[key.n] != 0 {
        DeletedSlot(slots[..], buckets[..], key.n, count, nextIntKey, order);
        EraseSlot(key.n);
        return true;
      }
      r := DelHashed(key);
    }

    method DelHashed(key: Key) returns (r: bool)
      requires Valid() && IsOccupied(key) && !(key.IntKey? && 0 <= key.n < slots.Length && slots[key.n] != 0)
      modifies this`count, this`order, buckets
      ensures Valid() && Contents() == old(Contents()) - {key} && (r <==> key in old(Contents()))
    {
      LookupTells(slots[..], buckets[..], key);
      r := false;
      if count > 0 {
        var found, p := FindEntry(buckets, key);
        SearchTells(buckets[..], key, found, p);
        if found && IsOccupied(buckets[p].key) {
          DeletedEntry(slots[..], buckets[..], p, count, nextIntKey, order);
          EraseEntry(p);
          return true;
        }
      }
      NothingRemoved(Contents(), key);
    }

    method EraseSlot(k: nat)
      requires k < slots.Length && count > 0
      modifies this`count, this`order, slots
      ensures slots[..] == old(slots[..])[k := 0] && buckets[..] == old(buckets[..])
      ensures count == old(count) - 1 && order == None
    {
      slots[k] := 0;
      count := count - 1;
      order := None;
    }

    method EraseEntry(p: nat)
      requires p < buckets.Length && count > 0
      modifies this`count, this`order, buckets
      ensures buckets[..] == old(buckets[..])[p := Entry(TombstoneKey, TAG_NULL)] && slots[..] == old(slots[..])
      ensures count == old(count) - 1 && order == None
    {
      buckets[p] := Entry(TombstoneKey, TAG_NULL);
      count := count - 1;
      order := None;
    }

    /** Builds the order of the keys unless one is cached. */
    method EnsureOrder()
      requires Valid()
      modifies this`order
      ensures Valid() && order.Some? && (old(order).Some? ==> order == old(order))
    {
      if order.Some? { return; }
      ghost var ss, bs := slots[..], buckets[..];
      var ks: seq<Key> := [];
      for i := 0 to slots.Length
        invariant ks == ArrayKeys(ss, i)
      {
        if slots[i] != 0 { ks := ks + [IntKey(i)]; }
      }
      ghost var a := ks;
      ghost var h: seq<Key> := [];
      for i := 0 to buckets.Length
        invariant ks == a + h && Lists(h, bs[..i])
      {
        ListsStep(h, bs, i);
        if IsOccupied(buckets[i].key) {
          ks, h := ks + [buckets[i].key], h + [buckets[i].key];
        }
      }
      assert bs[..|bs|] == bs && ks[|a|..] == h && ks[..|a|] == a;
      order := Some(ks);
    }

    /** Stores under the next integer key, which is never in use. */
    method Push(v: Word)
      requires Valid() && InRange(nextIntKey)
      modifies this, buckets, slots
      ensures (buckets == old(buckets) || fresh(buckets)) && (slots == old(slots) || fresh(slots))
      ensures IntKey(old(nextIntKey)) !in old(Contents())
      ensures Valid() <==> !(old(nextIntKey) < MAX_ARRAY && v == 0)
      ensures Valid() ==> Contents() == old(Contents())[IntKey(old(nextIntKey)) := v]
      ensures old(nextIntKey) >= MAX_ARRAY ==> slots == old(slots)
      ensures nextIntKey == old(nextIntKey) + 1
    {
      Set(IntKey(nextIntKey), v);
    }

    /** Removes the last integer key of the order and returns its value; `None` is the
        error raised when there is no integer key. A shadowed key yields null. */
    method Pop() returns (r: Option<Word>, ghost key: Key)
      requires Valid()
      modifies this, buckets, slots
      ensures buckets == old(buckets) && slots == old(slots) && Valid() && nextIntKey == old(nextIntKey)
      ensures r == None <==> forall k | k in old(Contents()) :: !k.IntKey?
      ensures r == None ==> Contents() == old(Contents())
      ensures r.Some? ==> key.IntKey? && key in old(Contents()) && Contents() == old(Contents()) - {key}
      ensures r.Some? ==> r.value == if Shadowed(key) then TAG_NULL else old(Contents())[key]
      ensures r.Some? && (forall k | k in old(Contents()) && k.IntKey? :: IsArrayKey(k)) ==>
                forall k | k in old(Contents()) && k.IntKey? :: k.n <= key.n
      ensures forall k | k in old(Contents()) && k.IntKey? && IsHashKey(k) :: IsHashKey(key)
    {
      EnsureOrder();
      ghost var m := Contents();
      OrderLists(order.value, slots[..], buckets[..]);
      var ks := order.value;
      var i := LastInt(ks);
      if i == |ks| { return None, EmptyKey; }
      key := ks[i];
      LastIsHashed(ks, slots[..], buckets[..], i);
      if forall k | k in m && k.IntKey? :: IsArrayKey(k) { LastIsLargest(ks, slots[..], buckets[..], i); }
      var v := Take(ks[i]);
      r := Some(v);
    }

    method Take(key: Key) returns (v: Word)
      requires Valid() && key in Contents() && IsOccupied(key)
      modifies this, buckets, slots
      ensures buckets == old(buckets) && slots == old(slots) && Valid() && Contents() == old(Contents()) - {key}
      ensures nextIntKey == old(nextIntKey)
      ensures v == if Shadowed(key) then TAG_NULL else old(Contents())[key]
    {
      var got := Get(key);
      v := if got.Some? then got.value else TAG_NULL;
      var deleted := Del(key);
    }

    /** With every integer key in the array, popping after a push restores the
        contents and gives the value back, unless the key pushed was shadowed. */
    method PushPop(v: Word) returns (r: Option<Word>)
      requires Valid() && InRange(nextIntKey) && !(nextIntKey < MAX_ARRAY && v == 0)
      requires forall k | k in Contents() && k.IntKey? :: IsArrayKey(k)
      modifies this, buckets, slots
      ensures Valid() && Contents() == old(Contents())
      ensures r == Some(if old(Shadowed(IntKey(nextIntKey))) then TAG_NULL else v)
    {
      ghost var m, key := Contents(), IntKey(nextIntKey);
      Push(v);
      ghost var popped;
      assert key in Contents();
      r, popped := Pop();
      LastPushed(m, key, v, popped);
    }
  }

  /** Where all integer keys are array keys, the one added next is the one popped,
      and removing it restores the map. */
  lemma LastPushed(m: map<Key, Word>, key: Key, v: Word, popped: Key)
    requires key.IntKey? && KeysBelow(m, key.n) && forall k | k in m && k.IntKey? :: IsArrayKey(k)
    requires popped in m[key := v] && popped.IntKey? && (IsHashKey(key) ==> IsHashKey(popped))
    requires IsArrayKey(key) ==> key.n <= popped.n
    ensures popped == key && m[key := v] - {key} == m
  {
    SameMap(m[key := v] - {key}, m);
  }

  // ---- the length of the array ----

  /** The first of `size`, `size * factor`, ... that is enough. The forwarding
      layers keep the definition from being unfolded everywhere. */
  function GrownFrom(size: nat, factor: nat, minSize: nat): (n: nat)
    requires size > 0 && factor > 1
    ensures n >= minSize
    decreases minSize - size, 2
  {
    GrownFromSealed(size, factor, minSize)
  }

  function GrownFromSealed(size: nat, factor: nat, minSize: nat): (n: nat)
    requires size > 0 && factor > 1
    ensures n >= minSize
    decreases minSize - size, 1
  {
    GrownFromDef(size, factor, minSize)
  }

  function GrownFromDef(size: nat, factor: nat, minSize: nat): (n: nat)
    requires size > 0 && factor > 1
    ensures n >= minSize
    decreases minSize - size, 0
  {
    if size >= minSize then size else GrownFrom(size * factor, factor, minSize)
  }

  lemma OpenGrown(size: nat, factor: nat, minSize: nat)
    requires size > 0 && factor > 1
    ensures GrownFrom(size, factor, minSize) == if size >= minSize then size else GrownFrom(size * factor, factor, minSize)
  {
    assert GrownFromSealed(size, factor, minSize) == GrownFromDef(size, factor, minSize);
  }

  function GrownLength(size: nat, minSize: nat): (n: nat)
    ensures n >= minSize
  {
    if size == 0 then GrownFrom(4, 2, minSize) else GrownFrom(size, if size > 1024 then 4 else 2, minSize)
  }

  function LengthAfter(size: nat, key: Key): nat {
    if IsArrayKey(key) && key.n >= size then GrownLength(size, key.n + 1) else size
  }

  lemma LengthForSlot(size: nat, k: nat)
    requires k < MAX_ARRAY
    ensures LengthAfter(size, IntKey(k)) == (if k >= size then GrownLength(size, k + 1) else size) > k
  {
  }

  /** The array's new length: it grows in steps, by a factor chosen from the length
      it starts from. */
  method NewLength(asize: nat, minSize: nat) returns (newSize: nat)
    ensures newSize == GrownLength(asize, minSize)
  {
    newSize := if asize != 0 then asize else 4;
    var growFactor := if newSize > 1024 then 4 else 2;
    while newSize < minSize
      invariant newSize > 0 && GrownFrom(newSize, growFactor, minSize) == GrownLength(asize, minSize)
    {
      OpenGrown(newSize, growFactor, minSize);
      newSize := newSize * growFactor;
    }
    OpenGrown(newSize, growFactor, minSize);
  }

  lemma {:induction false} DoublingReaches(size: nat, minSize: nat)
    requires 0 < size < minSize <= 1_048_576 && size in {4, 64, 1024, 16384, 262144}
    requires minSize > 524_288
    ensures GrownFrom(size, 2, minSize) == 1_048_576
    decreases minSize - size
  {
    OpenGrown(size, 2, minSize);
    OpenGrown(size * 2, 2, minSize);
    OpenGrown(size * 4, 2, minSize);
    if size == 262144 {
      assert size * 4 == 1_048_576;
    } else {
      OpenGrown(size * 8, 2, minSize);
      DoublingReaches(size * 16, minSize);
    }
  }

  /** A key that was stored and is not found. */
  method StoreShadowed(v: Word, w: Word) returns (r: Option<Word>, has: bool, tbl: BblTable)
    requires v != 0
    ensures r == None && !has
    ensures fresh(tbl) && tbl.Valid() && tbl.Contents() == map[IntKey(999_999) := v, IntKey(1_000_000) := w]
  {
    tbl := new BblTable();
    DoublingReaches(4, 1_000_000);
    tbl.Set(IntKey(999_999), v);
    tbl.Set(IntKey(1_000_000), w);
    r := tbl.Get(IntKey(1_000_000));
    has := tbl.Has(IntKey(1_000_000));
  }

  lemma OrderLists(ks: seq<Key>, ss: seq<Word>, bs: seq<Entry>)
    requires OrderSound(ks, ss, bs) && ArraySound(ss) && HashSound(bs)
    ensures forall i | 0 <= i < |ks| :: ks[i] in TableMap(ss, bs) && IsOccupied(ks[i])
    ensures forall k | k in TableMap(ss, bs) :: exists i :: 0 <= i < |ks| && ks[i] == k
  {
    OrderIsPermutation(ks, ss, bs);
    PartsDisjoint(ss, bs);
    forall i | 0 <= i < |ks| ensures ks[i] in TableMap(ss, bs) {
      assert ks[i] in (set x | x in ks);
    }
    forall k | k in TableMap(ss, bs) ensures exists i :: 0 <= i < |ks| && ks[i] == k {
      assert k in (set x | x in ks);
    }
  }

  /** The index of the last integer key of a list, or its length. */
  method LastInt(ks: seq<Key>) returns (i: nat)
    ensures i <= |ks| && forall j | 0 <= j < |ks| && (j > i || i == |ks|) :: !ks[j].IntKey?
    ensures i < |ks| ==> ks[i].IntKey?
  {
    i := |ks|;
    while i > 0
      invariant i <= |ks| && forall j | i <= j < |ks| :: !ks[j].IntKey?
    {
      i := i - 1;
      if ks[i].IntKey? { return; }
    }
    i := |ks|;
  }

  /** `h` lists the keys of the hash, each once. */
  predicate Lists(h: seq<Key>, bs: seq<Entry>) {
    NoRepeats(h) && (set k | k in h) == HashMap(bs).Keys
  }

  lemma ListsStep(h: seq<Key>, bs: seq<Entry>, i: nat)
    requires i < |bs| && HashSound(bs) && Lists(h, bs[..i])
    ensures Lists(if IsOccupied(bs[i].key) then h + [bs[i].key] else h, bs[..i + 1])
  {
    assert bs[..i + 1][..i] == bs[..i];
    if IsOccupied(bs[i].key) {
      var h' := h + [bs[i].key];
      NotEarlier(bs, i);
      assert forall k | k in h :: k in (set x | x in h);
      assert h'[..|h|] == h;
      assert (set k | k in h') == (set k | k in h) + {bs[i].key};
    }
  }

  lemma NotEarlier(bs: seq<Entry>, i: nat)
    requires HashSound(bs) && i < |bs| && IsOccupied(bs[i].key)
    ensures bs[i].key !in HashMap(bs[..i])
  {
    if bs[i].key in HashMap(bs[..i]) { var p := WhereHeld(bs[..i], bs[i].key); }
  }

  lemma {:induction false} ArrayKeysAscend(ss: seq<Word>, n: nat, i: nat, j: nat)
    requires n <= |ss| && i <= j < |ArrayKeys(ss, n)|
    ensures ArrayKeys(ss, n)[i].IntKey? && ArrayKeys(ss, n)[j].IntKey? && ArrayKeys(ss, n)[i].n <= ArrayKeys(ss, n)[j].n
  {
    ArrayKeysAre(ss, n);
    assert ArrayKeys(ss, n)[i] in ArrayKeys(ss, n) && ArrayKeys(ss, n)[j] in ArrayKeys(ss, n);
    if ss[n - 1] == 0 || j < |ArrayKeys(ss, n)| - 1 { ArrayKeysAscend(ss, n - 1, i, j); }
  }

  lemma HashKeysLast(ks: seq<Key>, ss: seq<Word>, bs: seq<Entry>, i: nat)
    requires OrderSound(ks, ss, bs) && ArraySound(ss) && HashSound(bs) && |ArrayKeys(ss, |ss|)| <= i < |ks|
    ensures IsHashKey(ks[i])
  {
    var h := ks[|ArrayKeys(ss, |ss|)|..];
    PartsDisjoint(ss, bs);
    assert ks[i] in h && ks[i] in (set x | x in h);
  }

  /** In an order the array's keys ascend, and come before the hash's. */
  lemma LastIsLargest(ks: seq<Key>, ss: seq<Word>, bs: seq<Entry>, i: nat)
    requires OrderSound(ks, ss, bs) && ArraySound(ss) && HashSound(bs) && i < |ks| && ks[i].IntKey?
    requires forall j | i < j < |ks| :: !ks[j].IntKey?
    requires forall k | k in TableMap(ss, bs) && k.IntKey? :: IsArrayKey(k)
    ensures forall k | k in TableMap(ss, bs) && k.IntKey? :: k.n <= ks[i].n
  {
    var a := ArrayKeys(ss, |ss|);
    PartsDisjoint(ss, bs);
    ArrayKeySet(ss);
    OrderIsPermutation(ks, ss, bs);
    assert ks[i] in (set x | x in ks);
    if i >= |a| {
      HashKeysLast(ks, ss, bs, i);
      assert false;
    }
    forall k | k in TableMap(ss, bs) && k.IntKey? ensures k.n <= ks[i].n {
      assert k in SlotMap(ss).Keys && k in (set x | x in a);
      var j :| 0 <= j < |a| && a[j] == k;
      assert ks[j] == ks[..|a|][j];
      ArrayKeysAscend(ss, |ss|, j, i);
    }
  }

  lemma HashKeyPlace(ks: seq<Key>, ss: seq<Word>, bs: seq<Entry>, k: Key) returns (j: nat)
    requires OrderSound(ks, ss, bs) && k in HashMap(bs)
    ensures |ArrayKeys(ss, |ss|)| <= j < |ks| && ks[j] == k
  {
    var h := ks[|ArrayKeys(ss, |ss|)|..];
    assert k in (set x | x in h);
    var i :| 0 <= i < |h| && h[i] == k;
    j := |ArrayKeys(ss, |ss|)| + i;
  }

  /** And the hash's keys end the order: its last integer key is one of them if any is. */
  lemma LastIsHashed(ks: seq<Key>, ss: seq<Word>, bs: seq<Entry>, i: nat)
    requires OrderSound(ks, ss, bs) && ArraySound(ss) && HashSound(bs) && i < |ks|
    requires forall j | i < j < |ks| :: !ks[j].IntKey?
    ensures forall k | k in TableMap(ss, bs) && k.IntKey? && IsHashKey(k) :: IsHashKey(ks[i])
  {
    PartsDisjoint(ss, bs);
    forall k | k in TableMap(ss, bs) && k.IntKey? && IsHashKey(k) ensures IsHashKey(ks[i]) {
      var j := HashKeyPlace(ks, ss, bs, k);
      HashKeysLast(ks, ss, bs, i);
    }
  }

  lemma SumStore(a: map<Key, Word>, b: map<Key, Word>, k: Key, v: Word)
    ensures a + b[k := v] == (a + b)[k := v]
    ensures k !in b ==> a[k := v] + b == (a + b)[k := v] && (a - {k}) + b == (a + b) - {k}
  {
    SameMap(a + b[k := v], (a + b)[k := v]);
    if k !in b {
      SameMap(a[k := v] + b, (a + b)[k := v]);
      SameMap((a - {k}) + b, (a + b) - {k});
    }
  }

  function NextAfter(next: int, k: Key): int {
    if k.IntKey? && k.n >= next then k.n + 1 else next
  }

  lemma KeysBelowStore(m: map<Key, Word>, k: Key, v: Word, next: int)
    requires KeysBelow(m, next)
    ensures KeysBelow(m[k := v], NextAfter(next, k))
  {
  }

  /** More empty slots change nothing; a key beyond the old ones is new. */
  lemma GrownSlots(ss: seq<Word>, ss': seq<Word>, bs: seq<Entry>)
    requires ArraySound(ss) && ss <= ss' && forall k | |ss| <= k < |ss'| :: ss'[k] == 0
    ensures ArraySound(ss') && TableMap(ss', bs) == TableMap(ss, bs)
  {
    SlotMapGrow(ss, ss');
  }

  lemma StoredSlotMap(ss: seq<Word>, bs: seq<Entry>, k: nat, v: Word)
    requires ArraySound(ss) && HashSound(bs) && k < |ss| && k < MAX_ARRAY
    ensures ArraySound(ss[k := v])
    ensures v != 0 ==> TableMap(ss[k := v], bs) == TableMap(ss, bs)[IntKey(k) := v]
    ensures v == 0 ==> TableMap(ss[k := v], bs) == TableMap(ss, bs) - {IntKey(k)}
    ensures IntKey(k) in TableMap(ss, bs) <==> ss[k] != 0
  {
    SlotMapStore(ss, k, v);
    ArrayKeyNotHashed(bs, k);
    SumStore(SlotMap(ss), HashMap(bs), IntKey(k), v);
  }

  lemma ArrayKeyNotHashed(bs: seq<Entry>, k: nat)
    requires HashSound(bs) && k < MAX_ARRAY
    ensures IntKey(k) !in HashMap(bs)
  {
    if IntKey(k) in HashMap(bs) { var p := WhereHeld(bs, IntKey(k)); }
  }

  /** The invariant, but a cached order need not be right if slot `k` is empty. */
  predicate SlotReady(ss: seq<Word>, bs: seq<Entry>, k: nat, count: nat, next: int, order: Option<seq<Key>>) {
    && ArraySound(ss) && HashSound(bs) && |bs| >= 4 && IsPowerOfTwo(|bs|) && 4 * |HashMap(bs)| <= 3 * |bs|
    && count == |TableMap(ss, bs)| && KeysBelow(TableMap(ss, bs), next) && k < |ss| && k < MAX_ARRAY
    && (ss[k] != 0 && order.Some? ==> OrderSound(order.value, ss, bs))
  }

  /** A store to the array keeps the invariant unless it stores a zero word. */
  lemma StoredSlot(ss: seq<Word>, bs: seq<Entry>, k: nat, v: Word, count: nat, next: int, order: Option<seq<Key>>)
    requires SlotReady(ss, bs, k, count, next, order)
    ensures var isNew, ss' := ss[k] == 0, ss[k := v];
            var count' := if isNew then count + 1 else count;
            if v != 0 then
              && TableSound(ss', bs, count', NextAfter(next, IntKey(k)), if isNew then None else order)
              && TableMap(ss', bs) == TableMap(ss, bs)[IntKey(k) := v]
            else count' != |TableMap(ss', bs)| && TableMap(ss', bs) == TableMap(ss, bs) - {IntKey(k)} && ArraySound(ss')
  {
    StoredSlotMap(ss, bs, k, v);
    var m := TableMap(ss, bs);
    if v != 0 {
      KeysBelowStore(m, IntKey(k), v, next);
      if ss[k] != 0 { ArrayKeysStore(ss, k, v, |ss|); }
    } else if ss[k] != 0 {
      assert (m - {IntKey(k)}).Keys == m.Keys - {IntKey(k)};
    }
  }

  lemma NothingRemoved(m: map<Key, Word>, key: Key)
    requires key !in m
    ensures m - {key} == m
  {
  }

  /** A store to the hash, rehashed from `bs0` to `bs` or not, keeps the invariant. */
  lemma StoredEntry(ss: seq<Word>, bs0: seq<Entry>, bs: seq<Entry>, key: Key, v: Word, p: nat,
                    count: nat, next: int, order: Option<seq<Key>>)
    requires TableSound(ss, bs0, count, next, order) && HashSound(bs) && HashMap(bs) == HashMap(bs0)
    requires |bs| >= 4 && IsPowerOfTwo(|bs|) && 4 * (|HashMap(bs)| + 1) <= 3 * |bs|
    requires IsHashKey(key) && Found(bs, key, p)
    ensures var isNew, bs' := !IsOccupied(bs[p].key), bs[p := Entry(key, v)];
            && TableSound(ss, bs', if isNew then count + 1 else count, NextAfter(next, key), if isNew then None else order)
            && TableMap(ss, bs') == TableMap(ss, bs0)[key := v]
  {
    StoreSound(bs, key, v, p);
    StoreMap(bs, key, v, p);
    PartsDisjoint(ss, bs0);
    var m := TableMap(ss, bs0);
    SumStore(SlotMap(ss), HashMap(bs), key, v);
    KeysBelowStore(m, key, v, next);
    if IsOccupied(bs[p].key) {
      assert HashMap(bs[p := Entry(key, v)]).Keys == HashMap(bs0).Keys;
    }
  }

  /** Growing once is enough, whatever the array holds. */
  lemma RoomFor(ss: seq<Word>, bs: seq<Entry>, count: nat, next: int, order: Option<seq<Key>>)
    requires TableSound(ss, bs, count, next, order)
    ensures var n, cap := |HashMap(bs)|, |bs|;
            4 * (n + 1) <= 3 * (if count + 1 > cap * 3 / 4 then (if cap < 8 then 8 else 2 * cap) else cap)
  {
    PartsDisjoint(ss, bs);
    RoomArithmetic(|HashMap(bs)|, |bs|, count);
  }

  lemma RoomArithmetic(n: nat, cap: nat, count: nat)
    requires n <= count && 4 * n <= 3 * cap && cap >= 4
    ensures 4 * (n + 1) <= 3 * (if count + 1 > cap * 3 / 4 then (if cap < 8 then 8 else 2 * cap) else cap)
  {
  }

  lemma SumDelete(a: map<Key, Word>, b: map<Key, Word>, k: Key)
    requires k !in a
    ensures a + (b - {k}) == (a + b) - {k}
  {
    SameMap(a + (b - {k}), (a + b) - {k});
  }

  lemma DeletedSlot(ss: seq<Word>, bs: seq<Entry>, k: nat, count: nat, next: int, order: Option<seq<Key>>)
    requires TableSound(ss, bs, count, next, order) && k < |ss| && ss[k] != 0
    ensures TableMap(ss[k := 0], bs) == TableMap(ss, bs) - {IntKey(k)} && count > 0
    ensures TableSound(ss[k := 0], bs, count - 1, next, None)
  {
    StoredSlotMap(ss, bs, k, 0);
    assert (TableMap(ss, bs) - {IntKey(k)}).Keys == TableMap(ss, bs).Keys - {IntKey(k)};
  }

  lemma DeletedEntry(ss: seq<Word>, bs: seq<Entry>, p: nat, count: nat, next: int, order: Option<seq<Key>>)
    requires TableSound(ss, bs, count, next, order) && p < |bs| && IsOccupied(bs[p].key)
    ensures TableMap(ss, bs[p := Entry(TombstoneKey, TAG_NULL)]) == TableMap(ss, bs) - {bs[p].key} && count > 0
    ensures TableSound(ss, bs[p := Entry(TombstoneKey, TAG_NULL)], count - 1, next, None)
  {
    var k, m := bs[p].key, TableMap(ss, bs);
    DeleteSound(bs, p, TAG_NULL);
    DeleteMap(bs, p, TAG_NULL);
    PartsDisjoint(ss, bs);
    SumDelete(SlotMap(ss), HashMap(bs), k);
    assert (m - {k}).Keys == m.Keys - {k} && k in m;
    assert (HashMap(bs) - {k}).Keys == HashMap(bs).Keys - {k};
  }
}
