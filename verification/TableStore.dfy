/** A table in the collected heap: what the collector sees of it is its words, read as
    references, so that storing and deleting keep both the table and the collector's
    invariant. */
module TableStore {
  import opened Wrappers
  import opened Probing
  import opened NanBox
  import opened Table
  import Heap
  import Gc

  /** What each word refers to. Zero and integers refer to nothing. */
  ghost predicate Reads(rd: Word -> Heap.Val) {
    rd(0).Plain? && forall w: Word | IsInt(w) :: rd(w).Plain?
  }

  function SlotVals(ss: seq<Word>, rd: Word -> Heap.Val): seq<Heap.Val> {
    seq(|ss|, i requires 0 <= i < |ss| => rd(ss[i]))
  }

  function EntryVal(e: Entry, rd: Word -> Heap.Val): Heap.Entry {
    match e.key
    case EmptyKey => Heap.Empty
    case TombstoneKey => Heap.Tombstone
    case k => Heap.Occupied(rd(KeyWord(k)), rd(e.val))
  }

  function EntryVals(bs: seq<Entry>, rd: Word -> Heap.Val): seq<Heap.Entry> {
    seq(|bs|, i requires 0 <= i < |bs| => EntryVal(bs[i], rd))
  }

  /** The object is the table as the collector sees it. */
  ghost predicate Mirrors(t: Heap.GcObj, tbl: BblTable, rd: Word -> Heap.Val)
    reads t`slots, t`buckets, tbl`slots, tbl`buckets, tbl.slots, tbl.buckets
  {
    t.gcType.TableObj? && t.slots == SlotVals(tbl.slots[..], rd) && t.buckets == EntryVals(tbl.buckets[..], rd)
  }

  /** What the keys and values of a map refer to. */
  ghost function KeyRefs(m: map<Key, Word>, rd: Word -> Heap.Val): set<Heap.GcObj> {
    set k | k in m && rd(KeyWord(k)).Ref? :: rd(KeyWord(k)).obj
  }

  ghost function ValueRefs(m: map<Key, Word>, rd: Word -> Heap.Val): set<Heap.GcObj> {
    set k | k in m && rd(m[k]).Ref? :: rd(m[k]).obj
  }

  ghost function Refs(m: map<Key, Word>, rd: Word -> Heap.Val): set<Heap.GcObj> {
    KeyRefs(m, rd) + ValueRefs(m, rd)
  }

  /** The edges the collector follows from a table are what the table's map refers to:
      empty slots, tombstones and free buckets hold nothing back. */
  lemma EdgesAreContents(ss: seq<Word>, bs: seq<Entry>, rd: Word -> Heap.Val)
    requires ArraySound(ss) && HashSound(bs) && Reads(rd)
    ensures Heap.Targets(SlotVals(ss, rd)) + Heap.EntryTargets(EntryVals(bs, rd)) == Refs(TableMap(ss, bs), rd)
  {
    var m, vs, es := TableMap(ss, bs), SlotVals(ss, rd), EntryVals(bs, rd);
    PartsDisjoint(ss, bs);
    forall o | o in Heap.Targets(vs) + Heap.EntryTargets(es) ensures o in Refs(m, rd) {
      EdgeIsContent(ss, bs, rd, o);
    }
    forall o | o in Refs(m, rd) ensures o in Heap.Targets(vs) + Heap.EntryTargets(es) {
      ContentIsEdge(ss, bs, rd, o);
    }
  }

  lemma SlotIsContent(ss: seq<Word>, bs: seq<Entry>, rd: Word -> Heap.Val, i: nat)
    requires ArraySound(ss) && HashSound(bs) && Reads(rd) && i < |ss| && rd(ss[i]).Ref?
    ensures rd(ss[i]).obj in Refs(TableMap(ss, bs), rd)
  {
    PartsDisjoint(ss, bs);
    assert IntKey(i) in SlotMap(ss);
    assert TableMap(ss, bs)[IntKey(i)] == ss[i];
  }

  lemma BucketIsContent(ss: seq<Word>, bs: seq<Entry>, rd: Word -> Heap.Val, p: nat)
    requires HashSound(bs) && p < |bs| && IsOccupied(bs[p].key)
    ensures bs[p].key in TableMap(ss, bs) && TableMap(ss, bs)[bs[p].key] == bs[p].val
  {
    Held(bs, p);
  }

  lemma EdgeIsContent(ss: seq<Word>, bs: seq<Entry>, rd: Word -> Heap.Val, o: Heap.GcObj)
    requires ArraySound(ss) && HashSound(bs) && Reads(rd)
    requires o in Heap.Targets(SlotVals(ss, rd)) + Heap.EntryTargets(EntryVals(bs, rd))
    ensures o in Refs(TableMap(ss, bs), rd)
  {
    var vs, es := SlotVals(ss, rd), EntryVals(bs, rd);
    if o in Heap.Targets(vs) {
      var i :| 0 <= i < |vs| && vs[i].Ref? && vs[i].obj == o;
      SlotIsContent(ss, bs, rd, i);
    } else {
      var p :| 0 <= p < |es| && es[p].Occupied? && (es[p].key == Heap.Ref(o) || es[p].val == Heap.Ref(o));
      BucketIsContent(ss, bs, rd, p);
    }
  }

  lemma ContentIsEdge(ss: seq<Word>, bs: seq<Entry>, rd: Word -> Heap.Val, o: Heap.GcObj)
    requires ArraySound(ss) && HashSound(bs) && Reads(rd) && o in Refs(TableMap(ss, bs), rd)
    ensures o in Heap.Targets(SlotVals(ss, rd)) + Heap.EntryTargets(EntryVals(bs, rd))
  {
    var m, vs, es := TableMap(ss, bs), SlotVals(ss, rd), EntryVals(bs, rd);
    PartsDisjoint(ss, bs);
    var k :| k in m && (rd(KeyWord(k)) == Heap.Ref(o) || rd(m[k]) == Heap.Ref(o));
    if k in HashMap(bs) {
      var p := WhereHeld(bs, k);
      Held(bs, p);
      assert es[p] == Heap.Occupied(rd(KeyWord(k)), rd(m[k]));
    } else {
      assert IsInt(KeyWord(k));
      assert vs[k.n] == rd(m[k]);
    }
  }

  /** Storing adds at most the references of the key and of the value. */
  lemma StoreAdds(m: map<Key, Word>, key: Key, v: Word, rd: Word -> Heap.Val)
    ensures Refs(m[key := v], rd) <= Refs(m, rd) + (Heap.Starts(rd(KeyWord(key))) + Heap.Starts(rd(v)))
    ensures Refs(m - {key}, rd) <= Refs(m, rd)
  {
  }

  /** What the collector would see of a table. */
  ghost function Seen(tbl: BblTable, rd: Word -> Heap.Val): set<Heap.GcObj>
    reads tbl`slots, tbl`buckets, tbl.slots, tbl.buckets
  {
    Heap.Targets(SlotVals(tbl.slots[..], rd)) + Heap.EntryTargets(EntryVals(tbl.buckets[..], rd))
  }

  /** What is known of a table, behind the same layers: whether its invariant holds,
      its map, and a bound on what the collector would see of it. */
  ghost predicate Holds(tbl: BblTable, rd: Word -> Heap.Val, ok: bool, m: map<Key, Word>, seen: set<Heap.GcObj>, n: nat)
    reads tbl, tbl.buckets, tbl.slots
    decreases n, 2
  {
    HoldsOnce(tbl, rd, ok, m, seen, n)
  }

  ghost predicate HoldsOnce(tbl: BblTable, rd: Word -> Heap.Val, ok: bool, m: map<Key, Word>, seen: set<Heap.GcObj>, n: nat)
    reads tbl, tbl.buckets, tbl.slots
    decreases n, 1
  {
    HoldsDef(tbl, rd, ok, m, seen, n)
  }

  ghost predicate HoldsDef(tbl: BblTable, rd: Word -> Heap.Val, ok: bool, m: map<Key, Word>, seen: set<Heap.GcObj>, n: nat)
    reads tbl, tbl.buckets, tbl.slots
    decreases n, 0
  {
    if n == 0 then (tbl.Valid() <==> ok) && tbl.Contents() == m && Seen(tbl, rd) <= seen else Holds(tbl, rd, ok, m, seen, n - 1)
  }

  lemma OpenHolds(tbl: BblTable, rd: Word -> Heap.Val, ok: bool, m: map<Key, Word>, seen: set<Heap.GcObj>)
    ensures Holds(tbl, rd, ok, m, seen, 0) <==> (tbl.Valid() <==> ok) && tbl.Contents() == m && Seen(tbl, rd) <= seen
  {
    assert HoldsOnce(tbl, rd, ok, m, seen, 0) == HoldsDef(tbl, rd, ok, m, seen, 0);
  }

  /** The collector's invariant at `n` = 0. The forwarding layers keep it from being
      unfolded while a table changes that is no part of the collector's state. */
  ghost predicate Sealed(st: Gc.BblState, n: nat)
    reads st`nurseryHead, st`tenuredHead, st`nursery, st`tenured, st`npos, st`tpos, st`roots, st`rememberedSet, st`internTable
    reads st.Objects()`slots, st.Objects()`buckets, st.Objects()`captures
    reads st.Objects()`isOld, st.Objects()`dirty, st.Objects()`marked, st.Objects()`gcNext
    decreases n, 2
  {
    SealedOnce(st, n)
  }

  ghost predicate SealedOnce(st: Gc.BblState, n: nat)
    reads st`nurseryHead, st`tenuredHead, st`nursery, st`tenured, st`npos, st`tpos, st`roots, st`rememberedSet, st`internTable
    reads st.Objects()`slots, st.Objects()`buckets, st.Objects()`captures
    reads st.Objects()`isOld, st.Objects()`dirty, st.Objects()`marked, st.Objects()`gcNext
    decreases n, 1
  {
    SealedDef(st, n)
  }

  ghost predicate SealedDef(st: Gc.BblState, n: nat)
    reads st`nurseryHead, st`tenuredHead, st`nursery, st`tenured, st`npos, st`tpos, st`roots, st`rememberedSet, st`internTable
    reads st.Objects()`slots, st.Objects()`buckets, st.Objects()`captures
    reads st.Objects()`isOld, st.Objects()`dirty, st.Objects()`marked, st.Objects()`gcNext
    decreases n, 0
  {
    if n == 0 then st.Valid() else Sealed(st, n - 1)
  }

  lemma OpenSealed(st: Gc.BblState)
    ensures Sealed(st, 0) <==> st.Valid()
  {
    assert SealedOnce(st, 0) == SealedDef(st, 0);
  }

  function Stored(m: map<Key, Word>, key: Key, val: Word): map<Key, Word> {
    if IsArrayKey(key) && val == 0 then m - {key} else m[key := val]
  }

  /** A store by itself. */
  method SetHeld(tbl: BblTable, rd: Word -> Heap.Val, key: Key, val: Word, ghost m: map<Key, Word>, ghost seen: set<Heap.GcObj>)
    requires Holds(tbl, rd, true, m, seen, 0) && Reads(rd) && IsOccupied(key)
    modifies tbl, tbl.buckets, tbl.slots
    ensures Holds(tbl, rd, !(IsArrayKey(key) && val == 0), Stored(m, key, val),
                  seen + (Heap.Starts(rd(KeyWord(key))) + Heap.Starts(rd(val))), 0)
  {
    OpenHolds(tbl, rd, true, m, seen);
    EdgesAreContents(tbl.slots[..], tbl.buckets[..], rd);
    StoreAdds(m, key, val, rd);
    tbl.Set(key, val);
    EdgesAreContents(tbl.slots[..], tbl.buckets[..], rd);
    OpenHolds(tbl, rd, !(IsArrayKey(key) && val == 0), Stored(m, key, val),
              seen + (Heap.Starts(rd(KeyWord(key))) + Heap.Starts(rd(val))));
  }

  /** It is nothing to the collector yet. */
  method SetBeside(st: Gc.BblState, tbl: BblTable, rd: Word -> Heap.Val, key: Key, val: Word,
                   ghost m: map<Key, Word>, ghost seen: set<Heap.GcObj>)
    requires Sealed(st, 0) && Holds(tbl, rd, true, m, seen, 0) && Reads(rd) && IsOccupied(key)
    modifies tbl, tbl.buckets, tbl.slots
    ensures Sealed(st, 0)
    ensures Holds(tbl, rd, !(IsArrayKey(key) && val == 0), Stored(m, key, val),
                  seen + (Heap.Starts(rd(KeyWord(key))) + Heap.Starts(rd(val))), 0)
  {
    assert st as object != tbl && st as object != tbl.buckets && st as object != tbl.slots;
    label before:
    SetHeld(tbl, rd, key, val, m, seen);
    assert unchanged@before(st) && unchanged@before(st.nursery) && unchanged@before(st.tenured) && unchanged@before(st.Objects());
  }

  /** The collector's object follows its table. */
  method Follow(st: Gc.BblState, t: Heap.GcObj, tbl: BblTable, rd: Word -> Heap.Val, key: Heap.Val, v: Heap.Val,
                ghost ok: bool, ghost m: map<Key, Word>, ghost seen: set<Heap.GcObj>)
    requires Sealed(st, 0) && t in st.Objects() && t.gcType.TableObj? && Heap.Starts(key) + Heap.Starts(v) <= st.Objects()
    requires Holds(tbl, rd, ok, m, seen, 0) && seen <= Heap.Scanned(t) + (Heap.Starts(key) + Heap.Starts(v))
    modifies t`slots, t`buckets, t`dirty, st`rememberedSet
    ensures Sealed(st, 0) && st.Objects() == old(st.Objects()) && Mirrors(t, tbl, rd) && Holds(tbl, rd, ok, m, seen, 0)
  {
    OpenSealed(st);
    OpenHolds(tbl, rd, ok, m, seen);
    st.SetTable(t, SlotVals(tbl.slots[..], rd), EntryVals(tbl.buckets[..], rd), key, v);
    OpenSealed(st);
  }

  /** A store through the table, seen by the collector: the table holds what storing
      means, and old objects that now lead to young ones are remembered. */
  method Set(st: Gc.BblState, t: Heap.GcObj, tbl: BblTable, rd: Word -> Heap.Val, key: Key, val: Word)
    requires st.Valid() && t in st.Objects() && tbl.Valid() && Mirrors(t, tbl, rd) && Reads(rd) && IsOccupied(key)
    requires Heap.Starts(rd(KeyWord(key))) + Heap.Starts(rd(val)) <= st.Objects()
    modifies tbl, tbl.buckets, tbl.slots, t`slots, t`buckets, t`dirty, st`rememberedSet
    ensures st.Valid() && st.Objects() == old(st.Objects()) && Mirrors(t, tbl, rd)
    ensures tbl.Valid() <==> !(IsArrayKey(key) && val == 0)
    ensures tbl.Contents() == Stored(old(tbl.Contents()), key, val)
  {
    ghost var m, seen, added := tbl.Contents(), Heap.Scanned(t), Heap.Starts(rd(KeyWord(key))) + Heap.Starts(rd(val));
    OpenSealed(st);
    OpenHolds(tbl, rd, true, m, seen);
    SetBeside(st, tbl, rd, key, val, m, seen);
    Follow(st, t, tbl, rd, rd(KeyWord(key)), rd(val), !(IsArrayKey(key) && val == 0), Stored(m, key, val),
           seen + added);
    OpenSealed(st);
    OpenHolds(tbl, rd, !(IsArrayKey(key) && val == 0), Stored(m, key, val), seen + added);
  }

  /** What a lookup in a live table gives has not been freed. */
  method Get(st: Gc.BblState, t: Heap.GcObj, tbl: BblTable, rd: Word -> Heap.Val, key: Key) returns (r: Option<Word>)
    requires st.Valid() && t in st.Objects() && tbl.Valid() && Mirrors(t, tbl, rd) && Reads(rd) && IsOccupied(key)
    ensures r == if !tbl.Shadowed(key) && key in tbl.Contents() then Some(tbl.Contents()[key]) else None
    ensures r.Some? ==> Heap.Starts(rd(r.value)) <= st.Objects()
  {
    EdgesAreContents(tbl.slots[..], tbl.buckets[..], rd);
    r := tbl.Get(key);
  }
}
