/** Open addressing with tombstones, on sequences of buckets: which sequences are
    well formed, the map they hold, and what storing and deleting do to both. */
module Probing {
  import opened NanBox

  // ---- keys and entries ----

  /** A key word by what it says: the two reserved words of a bucket, an integer, or any
      other word. Keys are not doubles, so equal keys have equal words. */
  datatype Key = EmptyKey | TombstoneKey | IntKey(n: int) | OtherKey(w: Word)

  datatype Entry = Entry(key: Key, val: Word)

  const MAX_ARRAY := 1_000_000

  predicate IsOccupied(k: Key) {
    !k.EmptyKey? && !k.TombstoneKey?
  }

  predicate IsArrayKey(k: Key) {
    k.IntKey? && 0 <= k.n < MAX_ARRAY
  }

  /** Keys that are stored in the hash part. */
  predicate IsHashKey(k: Key) {
    IsOccupied(k) && !IsArrayKey(k)
  }

  function KeyWord(k: Key): Word {
    match k
    case EmptyKey => 0
    case TombstoneKey => 1
    case IntKey(n) => TAG_INT + n % TWO_48
    case OtherKey(w) => w
  }

  /** Keys that a word can be: integers of 48 bits, tagged words that are no integers. */
  predicate IsWordKey(k: Key) {
    match k
    case IntKey(n) => InRange(n)
    case OtherKey(w) => !IsDouble(w) && !IsInt(w)
    case _ => true
  }

  /** Comparing keys is comparing words. */
  lemma SameWordSameKey(a: Key, b: Key)
    requires IsWordKey(a) && IsWordKey(b)
    ensures KeyWord(a) == KeyWord(b) <==> a == b
  {
    if a.IntKey? { PayloadOfInt(a.n); }
    if b.IntKey? { PayloadOfInt(b.n); }
  }

  /** Where the search for a key begins: a product of 64 bits, reduced to the capacity.
      The capacity is a power of two, so masking is taking the remainder. */
  function Home(k: Key, cap: nat): (h: nat)
    requires cap > 0
    ensures h < cap
  {
    KeyWord(k) * 11400714819323198485 % TWO_64 % cap
  }

  /** The bucket looked at after `i` steps. */
  function Slot(home: nat, i: nat, cap: nat): (p: nat)
    requires home < cap && i < cap
    ensures p < cap
  {
    if home + i < cap then home + i else home + i - cap
  }

  /** After how many steps bucket `p` is looked at. */
  function Dist(home: nat, p: nat, cap: nat): (i: nat)
    requires home < cap && p < cap
    ensures i < cap && Slot(home, i, cap) == p
  {
    if p >= home then p - home else p + cap - home
  }

  // ---- well-formed buckets ----

  /** No empty bucket lies between a key's home and bucket `p`. */
  predicate Reaches(bs: seq<Entry>, k: Key, p: nat)
    requires p < |bs|
  {
    forall i {:trigger Slot(Home(k, |bs|), i, |bs|)} :: 0 <= i < Dist(Home(k, |bs|), p, |bs|) ==>
      !bs[Slot(Home(k, |bs|), i, |bs|)].key.EmptyKey?
  }

  predicate HoldsAt(bs: seq<Entry>, k: Key, p: nat) {
    p < |bs| && bs[p].key == k
  }

  predicate Absent(bs: seq<Entry>, k: Key) {
    forall p | 0 <= p < |bs| :: bs[p].key != k
  }

  predicate HashSound(bs: seq<Entry>) {
    && (forall p | 0 <= p < |bs| && IsOccupied(bs[p].key) :: IsHashKey(bs[p].key) && Reaches(bs, bs[p].key, p))
    && (forall p, q | 0 <= p < |bs| && 0 <= q < |bs| && p != q && IsOccupied(bs[p].key) :: bs[p].key != bs[q].key)
  }

  /** What a search for `k` may return: the bucket that holds it, or else a free one in
      which it would be found. */
  predicate Found(bs: seq<Entry>, k: Key, p: nat) {
    && p < |bs| && Reaches(bs, k, p)
    && (bs[p].key == k || (!IsOccupied(bs[p].key) && Absent(bs, k)))
  }

  // ---- the map ----

  /** The keys and values of the occupied buckets. */
  function HashMap(bs: seq<Entry>): map<Key, Word> {
    if bs == [] then map[]
    else
      var e := bs[|bs| - 1];
      if IsOccupied(e.key) then HashMap(bs[..|bs| - 1])[e.key := e.val] else HashMap(bs[..|bs| - 1])
  }

  predicate DistinctKeys(bs: seq<Entry>) {
    forall p, q | 0 <= p < q < |bs| && IsOccupied(bs[p].key) :: bs[p].key != bs[q].key
  }

  lemma {:induction false} HashMapHolds(bs: seq<Entry>)
    requires DistinctKeys(bs)
    ensures forall p | 0 <= p < |bs| && IsOccupied(bs[p].key) :: bs[p].key in HashMap(bs) && HashMap(bs)[bs[p].key] == bs[p].val
    ensures forall k | k in HashMap(bs) :: IsOccupied(k) && exists p: nat :: HoldsAt(bs, k, p)
  {
    if bs != [] {
      var init := bs[..|bs| - 1];
      HashMapHolds(init);
      forall k | k in HashMap(bs) ensures IsOccupied(k) && exists p: nat :: HoldsAt(bs, k, p) {
        if k in HashMap(init) {
          var p: nat :| HoldsAt(init, k, p);
          assert HoldsAt(bs, k, p);
        } else {
          assert HoldsAt(bs, k, |bs| - 1);
        }
      }
    }
  }

  lemma SameMap(a: map<Key, Word>, b: map<Key, Word>)
    requires forall k | k in a :: k in b && a[k] == b[k]
    requires forall k | k in b :: k in a
    ensures a == b
  {
  }

  lemma WhereHeld(bs: seq<Entry>, k: Key) returns (p: nat)
    requires DistinctKeys(bs) && k in HashMap(bs)
    ensures HoldsAt(bs, k, p) && IsOccupied(k) && HashMap(bs)[k] == bs[p].val
  {
    HashMapHolds(bs);
    p :| HoldsAt(bs, k, p);
  }

  lemma Held(bs: seq<Entry>, p: nat)
    requires DistinctKeys(bs) && p < |bs| && IsOccupied(bs[p].key)
    ensures bs[p].key in HashMap(bs) && HashMap(bs)[bs[p].key] == bs[p].val
  {
    HashMapHolds(bs);
  }

  /** Storing where the search led. */
  lemma StoreSound(bs: seq<Entry>, k: Key, v: Word, p: nat)
    requires HashSound(bs) && IsHashKey(k) && Found(bs, k, p)
    ensures HashSound(bs[p := Entry(k, v)])
  {
    var bs' := bs[p := Entry(k, v)];
    forall q | 0 <= q < |bs'| && IsOccupied(bs'[q].key) ensures IsHashKey(bs'[q].key) && Reaches(bs', bs'[q].key, q) {
      assert Reaches(bs, bs'[q].key, q);
    }
  }

  lemma StoreMap(bs: seq<Entry>, k: Key, v: Word, p: nat)
    requires HashSound(bs) && IsHashKey(k) && Found(bs, k, p) && HashSound(bs[p := Entry(k, v)])
    ensures HashMap(bs[p := Entry(k, v)]) == HashMap(bs)[k := v]
    ensures k in HashMap(bs) <==> IsOccupied(bs[p].key)
  {
    var bs' := bs[p := Entry(k, v)];
    var m, m' := HashMap(bs), HashMap(bs');
    Held(bs', p);
    forall x | x in m' ensures x in m[k := v] && m'[x] == m[k := v][x] {
      var q := WhereHeld(bs', x);
      if q != p { Held(bs, q); }
    }
    forall x | x in m[k := v] ensures x in m' {
      if x != k {
        var q := WhereHeld(bs, x);
        Held(bs', q);
      }
    }
    SameMap(m', m[k := v]);
    if IsOccupied(bs[p].key) { Held(bs, p); }
    if k in m { var q := WhereHeld(bs, k); }
  }

  /** Replacing an entry by a tombstone. */
  lemma DeleteSound(bs: seq<Entry>, p: nat, v: Word)
    requires HashSound(bs) && p < |bs| && IsOccupied(bs[p].key)
    ensures HashSound(bs[p := Entry(TombstoneKey, v)])
  {
    var bs' := bs[p := Entry(TombstoneKey, v)];
    forall q | 0 <= q < |bs'| && IsOccupied(bs'[q].key) ensures IsHashKey(bs'[q].key) && Reaches(bs', bs'[q].key, q) {
      assert Reaches(bs, bs[q].key, q);
    }
  }

  lemma DeleteMap(bs: seq<Entry>, p: nat, v: Word)
    requires HashSound(bs) && p < |bs| && IsOccupied(bs[p].key) && HashSound(bs[p := Entry(TombstoneKey, v)])
    ensures HashMap(bs[p := Entry(TombstoneKey, v)]) == HashMap(bs) - {bs[p].key} && bs[p].key in HashMap(bs)
  {
    var bs', k := bs[p := Entry(TombstoneKey, v)], bs[p].key;
    var m, m' := HashMap(bs), HashMap(bs');
    Held(bs, p);
    forall x | x in m' ensures x in m - {k} && m'[x] == m[x] {
      var q := WhereHeld(bs', x);
      Held(bs, q);
    }
    forall x | x in m - {k} ensures x in m' {
      var q := WhereHeld(bs, x);
      Held(bs', q);
    }
    SameMap(m', m - {k});
  }

  lemma {:induction false} MapNotLarger(bs: seq<Entry>)
    ensures |HashMap(bs)| <= |bs|
  {
    if bs != [] { MapNotLarger(bs[..|bs| - 1]); }
  }

  /** Full buckets hold as many keys as there are. */
  lemma {:induction false} FullMap(bs: seq<Entry>)
    requires DistinctKeys(bs) && forall p | 0 <= p < |bs| :: IsOccupied(bs[p].key)
    ensures |HashMap(bs)| == |bs|
  {
    if bs != [] {
      var init := bs[..|bs| - 1];
      FullMap(init);
      HashMapHolds(init);
      assert bs[|bs| - 1].key !in HashMap(init);
    }
  }

  lemma {:induction false} EmptyMap(bs: seq<Entry>)
    requires forall p | 0 <= p < |bs| :: bs[p].key == EmptyKey
    ensures HashMap(bs) == map[] && HashSound(bs)
  {
    if bs != [] { EmptyMap(bs[..|bs| - 1]); }
  }

  // ---- searching ----

  /** An empty bucket ends the search: nothing beyond it can hold the key. */
  lemma EmptyEndsSearch(bs: seq<Entry>, k: Key, i: nat)
    requires HashSound(bs) && IsOccupied(k) && i < |bs|
    requires bs[Slot(Home(k, |bs|), i, |bs|)].key.EmptyKey?
    requires forall j {:trigger Slot(Home(k, |bs|), j, |bs|)} :: 0 <= j < i ==> bs[Slot(Home(k, |bs|), j, |bs|)].key != k
    ensures Absent(bs, k)
  {
    var home, cap := Home(k, |bs|), |bs|;
    forall p | 0 <= p < cap ensures bs[p].key != k {
      assert Slot(home, Dist(home, p, cap), cap) == p;
      assert bs[p].key == k ==> Reaches(bs, k, p);
    }
  }

  /** A search that has looked at every bucket has seen them all. */
  lemma AllSearched(bs: seq<Entry>, k: Key)
    requires |bs| > 0
    requires forall j {:trigger Slot(Home(k, |bs|), j, |bs|)} :: 0 <= j < |bs| ==> bs[Slot(Home(k, |bs|), j, |bs|)].key != k
    ensures Absent(bs, k)
  {
    var home, cap := Home(k, |bs|), |bs|;
    forall p | 0 <= p < cap ensures bs[p].key != k {
      assert Slot(home, Dist(home, p, cap), cap) == p;
    }
  }

  /** Searches for a key. The first tombstone passed is where a new key would go; there
      is none to return only when every bucket is taken by another key. */
  method FindEntry(buckets: array<Entry>, key: Key) returns (found: bool, p: nat)
    requires HashSound(buckets[..]) && IsOccupied(key) && buckets.Length > 0
    ensures found ==> Found(buckets[..], key, p)
    ensures !found ==> Absent(buckets[..], key) && forall q | 0 <= q < buckets.Length :: IsOccupied(buckets[q].key)
  {
    ghost var bs := buckets[..];
    var cap := buckets.Length;
    var home := Home(key, cap);
    found, p := false, 0;  // the first tombstone
    for i := 0 to cap
      invariant forall j {:trigger Slot(home, j, cap)} :: 0 <= j < i ==>
                  !bs[Slot(home, j, cap)].key.EmptyKey? && bs[Slot(home, j, cap)].key != key
      invariant !found ==> forall j {:trigger Slot(home, j, cap)} :: 0 <= j < i ==> IsOccupied(bs[Slot(home, j, cap)].key)
      invariant found ==> p < cap && bs[p].key.TombstoneKey? && Dist(home, p, cap) < i
    {
      var q := Slot(home, i, cap);
      assert Dist(home, q, cap) == i;
      if buckets[q].key.EmptyKey? {
        EmptyEndsSearch(bs, key, i);
        if !found { found, p := true, q; }
        return;
      }
      if buckets[q].key.TombstoneKey? {
        if !found { found, p := true, q; }
      } else if buckets[q].key == key {
        return true, q;
      }
    }
    AllSearched(bs, key);
    if !found {
      forall q | 0 <= q < cap ensures IsOccupied(buckets[q].key) {
        assert Slot(home, Dist(home, q, cap), cap) == q;
      }
    }
  }

  /** What a search says about the map. */
  lemma SearchTells(bs: seq<Entry>, key: Key, found: bool, p: nat)
    requires HashSound(bs) && IsOccupied(key)
    requires if found then Found(bs, key, p) else Absent(bs, key)
    ensures key in HashMap(bs) <==> found && IsOccupied(bs[p].key)
    ensures key in HashMap(bs) ==> bs[p].key == key && HashMap(bs)[key] == bs[p].val
  {
    if found && IsOccupied(bs[p].key) {
      Held(bs, p);
    } else if key in HashMap(bs) {
      var q := WhereHeld(bs, key);
    }
  }
}
