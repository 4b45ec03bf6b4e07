/** The generational collector: two linked lists of objects, a remembered set kept
    by the write barrier, and the minor and the full collection. */
module Gc {
  import opened Reachability
  import opened Heap
  import opened Fields

  // ---- linked lists ----

  ghost predicate Linked(head: GcObj?, s: seq<GcObj>)
    reads s`gcNext
  {
    && head == (if s == [] then null else s[0])
    && forall i {:trigger s[i].gcNext} :: 0 <= i < |s| ==> s[i].gcNext == (if i + 1 < |s| then s[i + 1] else null)
  }

  /** Where each object of a list stands; only a list without duplicates has such a map. */
  ghost predicate Positions(s: seq<GcObj>, pos: map<GcObj, nat>) {
    forall i {:trigger s[i]} :: 0 <= i < |s| ==> s[i] in pos && pos[s[i]] == i
  }

  /** The objects of a list that were marked, in order. */
  ghost function Marked(s: seq<GcObj>, marks: set<GcObj>): seq<GcObj> {
    if s == [] then []
    else
      var init, last := s[..|s| - 1], s[|s| - 1];
      if last in marks then Marked(init, marks) + [last] else Marked(init, marks)
  }

  lemma {:induction false} MarkedAre(s: seq<GcObj>, marks: set<GcObj>)
    ensures forall o | o in Marked(s, marks) :: o in s && o in marks
    ensures forall o | o in s && o in marks :: o in Marked(s, marks)
  {
    if s != [] {
      MarkedAre(s[..|s| - 1], marks);
      assert s == s[..|s| - 1] + [s[|s| - 1]];
    }
  }

  lemma BothMarked(olds: seq<GcObj>, young: seq<GcObj>, marks: set<GcObj>)
    requires marks <= (set o | o in olds) + (set o | o in young)
    ensures (set o | o in Marked(olds, marks) + Marked(young, marks)) == marks
  {
    MarkedAre(olds, marks);
    MarkedAre(young, marks);
  }

  /** The contents of the strings that a sweep frees. */
  ghost function DeadNames(s: seq<GcObj>, marks: set<GcObj>): set<string> {
    set o | o in s && o !in marks && o.gcType.StringObj? :: o.data
  }

  ghost function NameOf(o: GcObj): set<string> {
    if o.gcType.StringObj? then {o.data} else {}
  }

  /** What one more object adds to the sweep. */
  lemma SweepStep(s: seq<GcObj>, pos: map<GcObj, nat>, marks: set<GcObj>, k: nat)
    requires k < |s| && Positions(s, pos)
    ensures s[k] in marks ==> Marked(s[..k + 1], marks) == Marked(s[..k], marks) + [s[k]]
    ensures s[k] !in marks ==> Marked(s[..k + 1], marks) == Marked(s[..k], marks)
  {
    assert s[..k + 1][..k] == s[..k] && s[..k + 1] == s[..k] + [s[k]];
  }

  lemma NamesStep(s: seq<GcObj>, marks: set<GcObj>, k: nat)
    requires k < |s|
    ensures DeadNames(s[..k + 1], marks) == DeadNames(s[..k], marks) + (if s[k] in marks then {} else NameOf(s[k]))
  {
    assert s[..k + 1] == s[..k] + [s[k]];
  }

  /** A sweep that has dealt with the first `k` objects of `s`: `kept` are those that
      stay, linked to one another and on to `cur`. */
  ghost predicate Sweeping(s: seq<GcObj>, pos: map<GcObj, nat>, marks: set<GcObj>, k: nat, kept: seq<GcObj>, kpos: map<GcObj, nat>,
                           head: GcObj?, prev: GcObj?, cur: GcObj?)
    reads s`gcNext, kept`gcNext, s`marked
  {
    && k <= |s| && cur == (if k == |s| then null else s[k])
    && head == (if kept == [] then cur else kept[0]) && prev == (if kept == [] then null else kept[|kept| - 1])
    && kept == Marked(s[..k], marks) && Positions(kept, kpos)
    && (forall i {:trigger kept[i]} :: 0 <= i < |kept| ==> kept[i] in pos && pos[kept[i]] < k && kept[i] == s[pos[kept[i]]])
    && (forall i {:trigger kept[i].gcNext} :: 0 <= i < |kept| ==> kept[i].gcNext == (if i + 1 < |kept| then kept[i + 1] else cur))
    && (forall i {:trigger s[i].gcNext} :: k <= i < |s| ==> s[i].gcNext == (if i + 1 < |s| then s[i + 1] else null))
    && (forall i {:trigger s[i].marked} :: 0 <= i < |s| ==> (s[i].marked <==> i >= k && s[i] in marks))
  }

  ghost predicate InternedIn(table: map<string, GcObj>, live: set<GcObj>) {
    forall d | d in table :: table[d] in live && table[d].gcType.StringObj? && table[d].data == d
  }

  /** What was interned in the live objects stays so when a sweep frees some of them:
      each freed string takes its content out of the table. */
  lemma InternedAfter(table: map<string, GcObj>, live: set<GcObj>, s: seq<GcObj>, marks: set<GcObj>, live': set<GcObj>)
    requires InternedIn(table, live) && forall o | o in live :: o in live' || (o in s && o !in marks)
    ensures InternedIn(table - DeadNames(s, marks), live')
  {
  }

  lemma InternedBoth(table: map<string, GcObj>, live: set<GcObj>, young: seq<GcObj>, olds: seq<GcObj>, marks: set<GcObj>)
    requires InternedIn(table, live) && forall o | o in live :: o in young || o in olds
    ensures InternedIn(table - DeadNames(young, marks) - DeadNames(olds, marks), marks)
  {
  }

  /** Keeping `kept` leaves no reference to anything freed. */
  ghost predicate Keeps(roots: seq<Val>, kept: set<GcObj>)
    reads kept`slots, kept`buckets, kept`captures
  {
    Targets(roots) <= kept && forall o | o in kept :: Edges(o) <= kept
  }

  /** Collected objects are clean and unmarked. */
  ghost predicate Clean(s: seq<GcObj>)
    reads s`dirty, s`marked
  {
    forall o | o in s :: !o.dirty && !o.marked
  }

  /** Of the objects `live`, an old one with an edge to a young one is dirty; what was set
      when an old one was made is never young; the dirty ones are the remembered ones. */
  ghost predicate Barriered(live: set<GcObj>, olds: seq<GcObj>, remembered: seq<GcObj>)
    reads live`slots, live`buckets, live`captures, live`isOld, live`dirty
  {
    && (forall o | o in olds :: o in live) && (forall o | o in remembered :: o in olds)
    && (forall o | o in live :: if o in olds then o.dirty <==> o in remembered else !o.dirty)
    && (forall o | o in live && o in olds :: Fixed(o) * Enterable(live, true) == {})
    && (forall o | o in live && o in olds && !o.dirty :: Scanned(o) * Enterable(live, true) == {})
  }

  /** A young object that refers only to live ones can be added. */
  lemma SoundWithNew(live: set<GcObj>, olds: seq<GcObj>, remembered: seq<GcObj>, vs: seq<Val>, o: GcObj)
    requires Keeps(vs, live) && Barriered(live, olds, remembered) && Marks(live) == {}
    requires o !in live && !o.isOld && !o.dirty && !o.marked && Edges(o) <= live
    ensures Keeps(vs, live + {o}) && Barriered(live + {o}, olds, remembered) && Marks(live + {o}) == {}
  {
  }

  class BblState {
    var nurseryHead: GcObj?
    var tenuredHead: GcObj?
    var rememberedSet: seq<GcObj>
    var internTable: map<string, GcObj>
    var roots: seq<Val>  // what `markRoots` visits
    var allocCount: nat
    ghost var nursery: seq<GcObj>
    ghost var tenured: seq<GcObj>
    ghost var npos: map<GcObj, nat>
    ghost var tpos: map<GcObj, nat>

    /** A freed string takes its content out of the intern table. */
    method Free(dead: GcObj, ghost table: map<string, GcObj>, ghost names: set<string>)
      requires internTable == table - names
      modifies this`internTable
      ensures internTable == table - (names + NameOf(dead))
    {
      if dead.gcType.StringObj? { internTable := internTable - {dead.data}; }
    }

    /** Unlinks the object the sweep stands at. */
    method Drop(prev: GcObj?, cur: GcObj, head: GcObj?, ghost s: seq<GcObj>, ghost pos: map<GcObj, nat>, ghost marks: set<GcObj>,
                ghost k: nat, ghost kept: seq<GcObj>, ghost kpos: map<GcObj, nat>)
      returns (newHead: GcObj?, next: GcObj?)
      requires Positions(s, pos) && Sweeping(s, pos, marks, k, kept, kpos, head, prev, cur) && k < |s| && !cur.marked
      modifies s`gcNext
      ensures Sweeping(s, pos, marks, k + 1, kept, kpos, newHead, prev, next)
    {
      SweepStep(s, pos, marks, k);
      newHead, next := head, cur.gcNext;
      if prev == null { newHead := next; } else { prev.gcNext := next; }
    }

    /** Leaves it in place and clears its mark. */
    method Keep(prev: GcObj?, cur: GcObj, head: GcObj?, ghost s: seq<GcObj>, ghost pos: map<GcObj, nat>, ghost marks: set<GcObj>,
                ghost k: nat, ghost kept: seq<GcObj>, ghost kpos: map<GcObj, nat>)
      requires Positions(s, pos) && Sweeping(s, pos, marks, k, kept, kpos, head, prev, cur) && k < |s| && cur.marked
      modifies s`marked
      ensures Sweeping(s, pos, marks, k + 1, kept + [cur], kpos[cur := |kept|], head, cur, cur.gcNext)
    {
      SweepStep(s, pos, marks, k);
      cur.marked := false;
    }

    /** One turn of the sweep. */
    method SweepOne(prev: GcObj?, cur: GcObj, head: GcObj?, live: nat, ghost s: seq<GcObj>, ghost pos: map<GcObj, nat>,
                    ghost marks: set<GcObj>, ghost k: nat, ghost kept: seq<GcObj>, ghost kpos: map<GcObj, nat>,
                    ghost table: map<string, GcObj>)
      returns (newHead: GcObj?, prev': GcObj?, cur': GcObj?, live': nat, ghost kept': seq<GcObj>, ghost kpos': map<GcObj, nat>)
      requires Positions(s, pos) && Sweeping(s, pos, marks, k, kept, kpos, head, prev, cur) && k < |s| && live == |kept|
      requires internTable == table - DeadNames(s[..k], marks)
      modifies s`gcNext, s`marked, this`internTable
      ensures Sweeping(s, pos, marks, k + 1, kept', kpos', newHead, prev', cur') && live' == |kept'|
      ensures internTable == table - DeadNames(s[..k + 1], marks)
    {
      NamesStep(s, marks, k);
      newHead, prev', live', kept', kpos' := head, prev, live, kept, kpos;
      if !cur.marked {
        Free(cur, table, DeadNames(s[..k], marks));
        newHead, cur' := Drop(prev, cur, head, s, pos, marks, k, kept, kpos);
      } else {
        Keep(prev, cur, head, s, pos, marks, k, kept, kpos);
        live', kept', kpos' := live + 1, kept + [cur], kpos[cur := |kept|];
        prev', cur' := cur, cur.gcNext;
      }
    }

    /** Unlinks and frees the unmarked objects of a list and clears the other marks. */
    method SweepList(head: GcObj?, ghost s: seq<GcObj>, ghost pos: map<GcObj, nat>, ghost marks: set<GcObj>)
      returns (newHead: GcObj?, liveCount: nat, ghost kept: seq<GcObj>, ghost kpos: map<GcObj, nat>)
      requires Linked(head, s) && Positions(s, pos) && forall o | o in s :: o.marked <==> o in marks
      modifies s`gcNext, s`marked, this`internTable
      ensures kept == Marked(s, marks) && Linked(newHead, kept) && Positions(kept, kpos) && liveCount == |kept|
      ensures forall o | o in s :: !o.marked
      ensures internTable == old(internTable) - DeadNames(s, marks)
    {
      newHead, liveCount, kept, kpos := head, 0, [], map[];
      var prev: GcObj?, cur := null, head;
      ghost var k := 0;
      while cur != null
        invariant Sweeping(s, pos, marks, k, kept, kpos, newHead, prev, cur) && liveCount == |kept|
        invariant internTable == old(internTable) - DeadNames(s[..k], marks)
        decreases |s| - k
      {
        newHead, prev, cur, liveCount, kept, kpos :=
          SweepOne(prev, cur, newHead, liveCount, s, pos, marks, k, kept, kpos, old(internTable));
        k := k + 1;
      }
      assert s[..|s|] == s;
    }

    // ---- the end of a collection ----

    /** Every object of a list becomes old and clean. */
    method MakeOld(head: GcObj?, ghost s: seq<GcObj>)
      requires Linked(head, s)
      modifies s`isOld, s`dirty
      ensures forall o | o in s :: o.isOld && !o.dirty
    {
      var promoted := head;
      ghost var k := 0;
      while promoted != null
        invariant 0 <= k <= |s| && promoted == (if k == |s| then null else s[k])
        invariant forall i :: 0 <= i < k ==> s[i].isOld && !s[i].dirty
        decreases |s| - k
      {
        promoted.isOld := true;
        promoted.dirty := false;
        promoted := promoted.gcNext;
        k := k + 1;
      }
    }

    method ClearDirty(head: GcObj?, ghost s: seq<GcObj>)
      requires Linked(head, s)
      modifies s`dirty
      ensures forall o | o in s :: !o.dirty
    {
      var obj := head;
      ghost var k := 0;
      while obj != null
        invariant 0 <= k <= |s| && obj == (if k == |s| then null else s[k])
        invariant forall i :: 0 <= i < k ==> !s[i].dirty
        decreases |s| - k
      {
        obj.dirty := false;
        obj := obj.gcNext;
        k := k + 1;
      }
    }

    /** Finds the end of the tenured list and links the nursery there. */
    method AppendNursery(ghost joined: seq<GcObj>, ghost jpos: map<GcObj, nat>)
      requires Linked(nurseryHead, nursery) && Linked(tenuredHead, tenured)
      requires joined == tenured + nursery && Positions(joined, jpos)
      modifies this`tenuredHead, tenured`gcNext
      ensures Linked(tenuredHead, joined)
    {
      if tenuredHead == null {
        tenuredHead := nurseryHead;
        return;
      }
      var tail: GcObj := tenuredHead;
      ghost var k := 0;
      while tail.gcNext != null
        invariant 0 <= k < |tenured| && tail == tenured[k]
        decreases |tenured| - k
      {
        tail := tail.gcNext;
        k := k + 1;
      }
      assert tail == joined[k];
      tail.gcNext := nurseryHead;
      forall i | 0 <= i < |joined| ensures joined[i].gcNext == (if i + 1 < |joined| then joined[i + 1] else null) {
        assert joined[i] == if i < |tenured| then tenured[i] else nursery[i - |tenured|];
      }
    }

    // ---- the state between collections ----

    ghost function Objects(): set<GcObj>
      reads this`nursery, this`tenured
    {
      (set o | o in nursery) + (set o | o in tenured)
    }

    /** Both lists are well formed and hold different objects, young and old. */
    ghost predicate Lists()
      reads this`nurseryHead, this`tenuredHead, this`nursery, this`tenured, this`npos, this`tpos
      reads nursery`gcNext, nursery`isOld, tenured`gcNext, tenured`isOld
    {
      && Linked(nurseryHead, nursery) && Positions(nursery, npos) && (forall o | o in nursery :: !o.isOld)
      && Linked(tenuredHead, tenured) && Positions(tenured, tpos) && (forall o | o in tenured :: o.isOld)
    }

    /** So every object is in one place of one list. */
    lemma EachOnce()
      requires Lists()
      ensures forall i, j :: 0 <= i < j < |nursery| ==> nursery[i] != nursery[j]
      ensures forall i, j :: 0 <= i < j < |tenured| ==> tenured[i] != tenured[j]
      ensures forall o | o in nursery :: o !in tenured
    {
    }

    /** The intern table maps contents to live strings of those contents. */
    ghost predicate Interned()
      reads this`internTable, this`nursery, this`tenured
    {
      InternedIn(internTable, Objects())
    }

    ghost predicate Valid()
      reads this`nurseryHead, this`tenuredHead, this`nursery, this`tenured, this`npos, this`tpos
      reads this`roots, this`rememberedSet, this`internTable
      reads Objects()`slots, Objects()`buckets, Objects()`captures, Objects()`isOld, Objects()`dirty, Objects()`marked, Objects()`gcNext
    {
      Lists() && Interned() && Keeps(roots, Objects()) && Barriered(Objects(), tenured, rememberedSet) && Marks(Objects()) == {}
    }

    /** The graph whose edges the collector follows. */
    ghost function FullGraph(): Graph<GcObj>
      reads this`nursery, this`tenured, Objects()`slots, Objects()`buckets, Objects()`captures
    {
      map o | o in Objects() :: Edges(o)
    }

    /** The part of it a minor collection walks: edges to young objects. */
    ghost function YoungGraph(): Graph<GcObj>
      reads this`nursery, this`tenured, Objects()`slots, Objects()`buckets, Objects()`captures, Objects()`isOld
    {
      map o | o in Objects() :: Edges(o) * Enterable(Objects(), true)
    }

    /** Where a minor collection starts: the roots, and the edges of remembered objects. */
    ghost function YoungStarts(): set<GcObj>
      reads this`nursery, this`tenured, this`roots, this`rememberedSet
      reads Objects()`slots, Objects()`buckets, Objects()`captures, Objects()`isOld
    {
      Targets(roots) * Enterable(Objects(), true) + Successors(YoungGraph(), rememberedSet)
    }

    // ---- what the fields hold ----

    /** The objects the roots hold. */
    ghost function Rooted(): set<GcObj>
      reads this`nursery, this`tenured, this`roots
    {
      set o | o in Objects() && InSlots(roots, o)
    }

    /** The objects that references lead to from the roots. */
    ghost function HeldByRoots(): set<GcObj>
      reads this`nursery, this`tenured, this`roots, Objects()`slots, Objects()`buckets, Objects()`captures
    {
      Held(Objects(), Rooted())
    }

    ghost function Young(): set<GcObj>
      reads this`nursery
    {
      set o | o in nursery
    }

    /** The young objects that a root or an old object holds. */
    ghost function YoungHeldOutside(): set<GcObj>
      reads this`nursery, this`tenured, this`roots, tenured`slots, tenured`buckets, tenured`captures
    {
      set o | o in Young() && (InSlots(roots, o) || exists r | r in tenured :: Refers(r, o))
    }

    /** The young objects that references lead to from those, among the young. */
    ghost function HeldYoung(): set<GcObj>
      reads this`nursery, this`tenured, this`roots, Objects()`slots, Objects()`buckets, Objects()`captures
    {
      Held(Young(), YoungHeldOutside())
    }

    /** In a valid state every reference in the fields of a live object, and every root,
        is to a live object, and an old object that holds a young one is remembered. */
    lemma NothingDangles()
      requires Valid()
      ensures forall i :: 0 <= i < |roots| && roots[i].Ref? ==> roots[i].obj in Objects()
      ensures forall o | o in Objects() && (o.gcType.ClosureObj? || o.gcType.FnObj?) ::
                forall i :: 0 <= i < |o.captures| && o.captures[i].Ref? ==> o.captures[i].obj in Objects()
      ensures forall o | o in Objects() && o.gcType.ClosureObj? && o.env != null :: o.env in Objects()
      ensures forall o | o in Objects() && o.gcType.TableObj? ::
                forall i :: 0 <= i < |o.slots| && o.slots[i].Ref? ==> o.slots[i].obj in Objects()
      ensures forall o | o in Objects() && o.gcType.TableObj? ::
                forall i :: 0 <= i < |o.buckets| && o.buckets[i].Occupied? ==>
                  (o.buckets[i].key.Ref? ==> o.buckets[i].key.obj in Objects()) && (o.buckets[i].val.Ref? ==> o.buckets[i].val.obj in Objects())
      ensures forall o, x | o in tenured && x in nursery && Refers(o, x) :: o in rememberedSet && o.dirty
    {
      RootsLive();
      forall o | o in Objects() ensures FieldsLive(o) { FieldsAreLive(o); }
      forall o, x | o in tenured && x in nursery && Refers(o, x) ensures o in rememberedSet && o.dirty { OldHolderRemembered(o, x); }
    }

    lemma RootsLive()
      requires Valid()
      ensures forall i :: 0 <= i < |roots| && roots[i].Ref? ==> roots[i].obj in Objects()
    {
      forall i | 0 <= i < |roots| && roots[i].Ref? ensures roots[i].obj in Objects() { TargetIsSlot(roots, roots[i].obj); }
    }

    ghost predicate FieldsLive(o: GcObj)
      reads this`nursery, this`tenured, o`slots, o`buckets, o`captures
    {
      && (o.gcType.ClosureObj? || o.gcType.FnObj? ==>
            forall i :: 0 <= i < |o.captures| && o.captures[i].Ref? ==> o.captures[i].obj in Objects())
      && (o.gcType.ClosureObj? && o.env != null ==> o.env in Objects())
      && (o.gcType.TableObj? ==> forall i :: 0 <= i < |o.slots| && o.slots[i].Ref? ==> o.slots[i].obj in Objects())
      && (o.gcType.TableObj? ==> forall i :: 0 <= i < |o.buckets| && o.buckets[i].Occupied? ==>
            (o.buckets[i].key.Ref? ==> o.buckets[i].key.obj in Objects()) && (o.buckets[i].val.Ref? ==> o.buckets[i].val.obj in Objects()))
    }

    lemma FieldsAreLive(o: GcObj)
      requires Valid() && o in Objects()
      ensures FieldsLive(o)
    {
      forall x | Refers(o, x) ensures x in Objects() { EdgeIsReference(o, x); }
      if o.gcType.TableObj? {
        forall i | 0 <= i < |o.slots| && o.slots[i].Ref? ensures o.slots[i].obj in Objects() {
          assert Refers(o, o.slots[i].obj);
        }
        forall i | 0 <= i < |o.buckets| && o.buckets[i].Occupied?
          ensures (o.buckets[i].key.Ref? ==> o.buckets[i].key.obj in Objects()) && (o.buckets[i].val.Ref? ==> o.buckets[i].val.obj in Objects())
        {
          if o.buckets[i].key.Ref? { assert Refers(o, o.buckets[i].key.obj); }
          if o.buckets[i].val.Ref? { assert Refers(o, o.buckets[i].val.obj); }
        }
      } else if o.gcType.ClosureObj? || o.gcType.FnObj? {
        forall i | 0 <= i < |o.captures| && o.captures[i].Ref? ensures o.captures[i].obj in Objects() {
          assert Refers(o, o.captures[i].obj);
        }
        if o.gcType.ClosureObj? && o.env != null { assert Refers(o, o.env); }
      }
    }

    lemma OldHolderRemembered(o: GcObj, x: GcObj)
      requires Valid() && o in tenured && x in nursery && Refers(o, x)
      ensures o in rememberedSet && o.dirty
    {
      EdgeIsReference(o, x);
      var young := Enterable(Objects(), true);
      assert o in Objects() && x in young;
      assert x in Scanned(o) * young || x in Fixed(o) * young;
    }

    lemma FullByFields(full: Graph<GcObj>)
      requires Valid() && full == FullGraph()
      ensures (set x | x in full && Reachable(full, Targets(roots), x)) == HeldByRoots()
    {
      forall o | o in Objects() ensures o in Rooted() <==> o in Targets(roots) { TargetIsSlot(roots, o); }
      assert Rooted() == Targets(roots);
      assert forall o | o in Objects() :: full[o] == Edges(o) * Objects();
      forall x | x in Objects() ensures x in HeldByRoots() <==> Reachable(full, Targets(roots), x) {
        HeldIsReachable(full, Objects(), Rooted(), x);
      }
    }

    // ---- collections ----

    /** The marking phase of a minor collection marks exactly the young objects that
        can be reached among young objects from where it starts. */
    method MarkYoung(ghost heap: set<GcObj>, ghost g: Graph<GcObj>, ghost starts: set<GcObj>)
      requires Snapshot(heap, true, g) && Targets(roots) <= heap && Marks(heap) == {}
      requires Rescannable(rememberedSet, heap)
      requires starts == Targets(roots) * Enterable(heap, true) + Successors(g, rememberedSet)
      modifies heap`marked
      ensures Traversed(g, starts, {}, Marks(heap))
    {
      ghost var elig := Enterable(heap, true);
      MarkEach(roots, true, heap, g);
      ghost var m1 := Marks(heap);
      MarkRemembered(rememberedSet, heap, g);
      TraversedThen(g, Targets(roots) * elig, Successors(g, rememberedSet), {}, m1, Marks(heap));
    }

    /** What the invariant gives a minor collection to start from: every young object
        that an old one leads to is led to by a remembered one. */
    lemma MinorStart(full: Graph<GcObj>, g: Graph<GcObj>, young: set<GcObj>, starts: set<GcObj>)
      requires Valid() && full == FullGraph() && g == YoungGraph() && young == Enterable(Objects(), true) && starts == YoungStarts()
      ensures Snapshot(Objects(), true, g) && Snapshot(Objects(), false, full) && Rescannable(rememberedSet, Objects())
      ensures Covered(full, g, young, Targets(roots), starts)
      ensures young == (set o | o in nursery) && full.Keys - young == OldObjects()
    {
      forall x | x in full && x !in young ensures full[x] * young <= starts {
        assert x in tenured && full[x] * young == Scanned(x) * young + Fixed(x) * young;
        if x.dirty { assert x in rememberedSet && g[x] <= Successors(g, rememberedSet); }
      }
    }

    /** In terms of the fields: a minor collection starts from the young objects held
        outside, and decides as `HeldYoung` and `HeldByRoots` say. */
    lemma MinorByFields(full: Graph<GcObj>, g: Graph<GcObj>, young: set<GcObj>, starts: set<GcObj>)
      requires Valid() && full == FullGraph() && g == YoungGraph() && young == Enterable(Objects(), true) && starts == YoungStarts()
      ensures Survivors(g, young, starts) == OldObjects() + HeldYoung()
      ensures HeldByRoots() <= (set x | x in full && Reachable(full, Targets(roots), x))
    {
      FullByFields(full);
      assert young == Young();
      StartsByFields(young, starts);
      assert forall o | o in young :: g[o] == Edges(o) * young;
      forall x | x in Objects() ensures x in Survivors(g, young, starts) <==> x in OldObjects() + HeldYoung() {
        HeldIsReachable(g, young, starts, x);
      }
    }

    lemma StartsByFields(young: set<GcObj>, starts: set<GcObj>)
      requires Valid() && young == Enterable(Objects(), true) && starts == YoungStarts()
      ensures starts == YoungHeldOutside()
    {
      forall o | o in young ensures o in starts <==> o in YoungHeldOutside() {
        TargetIsSlot(roots, o);
        forall r | r in tenured ensures Refers(r, o) <==> r in rememberedSet && o in YoungGraph()[r] {
          EdgeIsReference(r, o);
          if Refers(r, o) { OldHolderRemembered(r, o); }
        }
      }
    }

    /** The marking phase: with the old objects, what it marks is what survives. */
    method MarkMinor(ghost full: Graph<GcObj>, ghost g: Graph<GcObj>, ghost young: set<GcObj>, ghost starts: set<GcObj>)
      returns (ghost marks: set<GcObj>)
      requires Snapshot(Objects(), true, g) && Snapshot(Objects(), false, full) && Rescannable(rememberedSet, Objects())
      requires Covered(full, g, young, Targets(roots), starts) && Marks(Objects()) == {}
      requires young == Enterable(Objects(), true) && starts == Targets(roots) * young + Successors(g, rememberedSet)
      modifies Objects()`marked
      ensures marks == Marks(Objects()) && marks <= young && full.Keys - young + marks == Survivors(g, young, starts)
      ensures Keeps(roots, Survivors(g, young, starts))
      ensures forall x | x in full && Reachable(full, Targets(roots), x) :: x in Survivors(g, young, starts)
    {
      MarkYoung(Objects(), g, starts);
      marks := Marks(Objects());
      KeptIsClosed(full, g, young, Targets(roots), starts, marks);
      KeepsClosed(full, Survivors(g, young, starts));
    }

    lemma KeepsClosed(full: Graph<GcObj>, kept: set<GcObj>)
      requires Snapshot(Objects(), false, full) && ClosedUnder(full, Targets(roots), kept)
      ensures Keeps(roots, kept)
    {
    }

    /** The nursery, swept already, linked to the end of the tenured list as old objects. */
    method JoinLists(ghost joined: seq<GcObj>, ghost jpos: map<GcObj, nat>)
      requires Linked(nurseryHead, nursery) && Linked(tenuredHead, tenured) && forall o | o in tenured :: o.isOld
      requires joined == tenured + nursery && Positions(joined, jpos)
      modifies this`tenuredHead, nursery`isOld, nursery`dirty, tenured`gcNext
      ensures Linked(tenuredHead, joined) && forall o | o in joined :: o.isOld
    {
      AppendNursery(joined, jpos);
      assert forall i :: 0 <= i < |nursery| ==> nursery[i] == joined[|tenured| + i];
      MakeOld(nurseryHead, nursery);
    }

    ghost function OldObjects(): set<GcObj>
      reads this`tenured
    {
      set o | o in tenured
    }

    /** The state a collection leaves. */
    lemma AllTenured(kept: set<GcObj>)
      requires Lists() && nursery == [] && rememberedSet == [] && kept == OldObjects() && Keeps(roots, kept) && Clean(tenured)
      requires InternedIn(internTable, kept)
      ensures Valid()
    {
    }

    /** The nursery becomes the end of the tenured list. */
    method AbsorbNursery()
      requires Linked(nurseryHead, nursery) && Positions(nursery, npos) && forall o | o in nursery :: !o.isOld
      requires Linked(tenuredHead, tenured) && Positions(tenured, tpos) && forall o | o in tenured :: o.isOld
      modifies this`nurseryHead, this`tenuredHead, this`nursery, this`tenured, this`npos, this`tpos
      modifies nursery`isOld, nursery`dirty, tenured`gcNext
      ensures nursery == [] && tenured == old(tenured) + old(nursery) && Lists()
    {
      ghost var joined := tenured + nursery;
      ghost var jpos := JoinPositions(tenured, tpos, nursery, npos);
      JoinLists(joined, jpos);
      nurseryHead := null;
      tenured, tpos, nursery, npos := joined, jpos, [], map[];
    }

    /** The nursery, swept already, is promoted, and no object stays dirty. */
    method PromoteNursery()
      requires Linked(nurseryHead, nursery) && Positions(nursery, npos) && forall o | o in nursery :: !o.isOld
      requires Linked(tenuredHead, tenured) && Positions(tenured, tpos) && forall o | o in tenured :: o.isOld
      modifies this`nurseryHead, this`tenuredHead, this`nursery, this`tenured, this`npos, this`tpos
      modifies nursery`isOld, nursery`dirty, tenured`dirty, tenured`gcNext
      ensures nursery == [] && tenured == old(tenured) + old(nursery) && Lists()
      ensures forall o | o in tenured :: !o.dirty
    {
      AbsorbNursery();
      assert forall o | o in tenured :: o in old(tenured) || o in old(nursery);
      ClearDirty(tenuredHead, tenured);
    }

    /** Sweeping the nursery leaves the marked young objects there. */
    method SweepNursery(ghost marks: set<GcObj>)
      requires Lists() && marks == Marks(Objects())
      modifies this`nurseryHead, this`nursery, this`npos, this`internTable, nursery`marked, nursery`gcNext
      ensures Lists() && nursery == Marked(old(nursery), marks)
      ensures forall i :: 0 <= i < |nursery| ==> nursery[i] in old(nursery) && nursery[i] in marks
      ensures forall o | o in old(nursery) :: !o.marked
      ensures internTable == old(internTable) - DeadNames(old(nursery), marks)
    {
      assert forall i :: 0 <= i < |tenured| ==> tenured[i] !in nursery;
      var head, live;
      ghost var kept, kpos;
      head, live, kept, kpos := SweepList(nurseryHead, nursery, npos, marks);
      MarkedAre(nursery, marks);
      nurseryHead, nursery, npos := head, kept, kpos;
    }

    /** Sweeping the nursery and promoting what is left of it. */
    method SweepAndPromote(ghost marks: set<GcObj>)
      requires Lists() && marks == Marks(Objects()) && marks <= (set o | o in nursery)
      modifies this`nurseryHead, this`tenuredHead, this`nursery, this`tenured, this`npos, this`tpos, this`internTable
      modifies nursery`marked, nursery`isOld, nursery`dirty, nursery`gcNext, tenured`dirty, tenured`gcNext
      ensures Lists() && nursery == [] && OldObjects() == old(OldObjects()) + marks && Clean(tenured)
      ensures internTable == old(internTable) - DeadNames(old(nursery), marks)
    {
      ghost var before, olds := nursery, tenured;
      forall i | 0 <= i < |tenured| ensures !tenured[i].marked {
        assert tenured[i] in Objects() && tenured[i] !in nursery;
      }
      SweepNursery(marks);
      ghost var kept := nursery;
      PromoteNursery();
      MarkedAre(before, marks);
      assert tenured == olds + kept;
    }

    /** After a minor collection's marking phase. */
    method FinishMinor(ghost marks: set<GcObj>)
      requires Lists() && Interned() && marks == Marks(Objects()) && marks <= (set o | o in nursery)
      modifies this, nursery`marked, nursery`isOld, nursery`dirty, nursery`gcNext, tenured`dirty, tenured`gcNext
      ensures roots == old(roots) && rememberedSet == []
      ensures Lists() && nursery == [] && OldObjects() == old(OldObjects()) + marks && Clean(tenured)
      ensures InternedIn(internTable, OldObjects())
    {
      InternedAfter(internTable, Objects(), nursery, marks, OldObjects() + marks);
      rememberedSet, allocCount := [], 0;
      SweepAndPromote(marks);
    }

    /** Edges do not change while unmarked objects go. */
    method FinishKeeping(ghost marks: set<GcObj>, ghost kept: set<GcObj>)
      requires Lists() && Interned() && marks == Marks(Objects()) && marks <= (set o | o in nursery)
      requires kept == OldObjects() + marks && Keeps(roots, kept)
      modifies this, nursery`marked, nursery`isOld, nursery`dirty, nursery`gcNext, tenured`dirty, tenured`gcNext
      ensures Valid() && roots == old(roots) && rememberedSet == [] && nursery == [] && Objects() == kept
    {
      FinishMinor(marks);
      forall o | o in kept ensures Edges(o) <= kept {
        assert old(Edges(o)) <= kept;
      }
      AllTenured(kept);
    }

    method CollectYoung(ghost full: Graph<GcObj>, ghost g: Graph<GcObj>, ghost young: set<GcObj>, ghost starts: set<GcObj>)
      requires Snapshot(Objects(), true, g) && Snapshot(Objects(), false, full) && Rescannable(rememberedSet, Objects())
      requires Covered(full, g, young, Targets(roots), starts) && Marks(Objects()) == {} && Lists() && Interned()
      requires young == Enterable(Objects(), true) && starts == Targets(roots) * young + Successors(g, rememberedSet)
      requires young == (set o | o in nursery) && full.Keys - young == OldObjects()
      modifies this, nursery`marked, nursery`isOld, nursery`dirty, nursery`gcNext, tenured`marked, tenured`dirty, tenured`gcNext
      ensures Valid() && roots == old(roots) && nursery == [] && rememberedSet == []
      ensures Objects() == Survivors(g, young, starts)
      ensures forall x | x in full && Reachable(full, Targets(roots), x) :: x in Objects()
    {
      ghost var marks := MarkMinor(full, g, young, starts);
      FinishKeeping(marks, Survivors(g, young, starts));
    }

    /** Frees exactly what is young and held by nothing that stays: references lead to it
        neither from a root nor from an old object. What survives becomes old, nothing
        that references lead to from the roots is freed, and no value held by an object
        changes. */
    method GcMinor()
      requires Valid()
      modifies this, nursery`marked, nursery`isOld, nursery`dirty, nursery`gcNext, tenured`marked, tenured`dirty, tenured`gcNext
      ensures Valid() && roots == old(roots) && nursery == [] && rememberedSet == []
      ensures Objects() == old(OldObjects() + HeldYoung())
      ensures old(HeldByRoots()) <= Objects()
    {
      ghost var full, g, young, starts := FullGraph(), YoungGraph(), Enterable(Objects(), true), YoungStarts();
      MinorStart(full, g, young, starts);
      MinorByFields(full, g, young, starts);
      CollectYoung(full, g, young, starts);
    }

    // ---- the full collection ----

    lemma FullStart(full: Graph<GcObj>)
      requires Valid() && full == FullGraph()
      ensures (set x | x in full && Reachable(full, Targets(roots), x)) == HeldByRoots()
      ensures Snapshot(Objects(), false, full) && full.Keys == Objects() && Targets(roots) <= Objects()
      ensures forall x | x in full :: full[x] <= full.Keys
    {
      FullByFields(full);
    }

    /** The marking phase marks exactly what can be reached. */
    method MarkFull(ghost full: Graph<GcObj>) returns (ghost marks: set<GcObj>)
      requires Snapshot(Objects(), false, full) && full.Keys == Objects() && Targets(roots) <= Objects() && Marks(Objects()) == {}
      modifies Objects()`marked
      ensures marks == Marks(Objects()) && Keeps(roots, marks)
      ensures marks == (set x | x in full && Reachable(full, Targets(roots), x))
    {
      MarkEach(roots, false, Objects(), full);
      marks := Marks(Objects());
      assert Targets(roots) * Enterable(Objects(), false) == Targets(roots);
      forall x | x in full ensures x in marks <==> Reachable(full, Targets(roots), x) {
        TraversedExact(full, Targets(roots), marks, x);
      }
      KeepsClosed(full, marks);
    }

    /** Sweeping the tenured list leaves the marked old objects there. */
    method SweepTenured(ghost marks: set<GcObj>)
      requires Lists() && forall o | o in tenured :: o.marked <==> o in marks
      modifies this`tenuredHead, this`tenured, this`tpos, this`internTable, tenured`marked, tenured`gcNext
      ensures Lists() && tenured == Marked(old(tenured), marks)
      ensures forall i :: 0 <= i < |tenured| ==> tenured[i] in old(tenured) && tenured[i] in marks
      ensures forall o | o in old(tenured) :: !o.marked
      ensures internTable == old(internTable) - DeadNames(old(tenured), marks)
    {
      assert forall i :: 0 <= i < |nursery| ==> nursery[i] !in tenured;
      var head, live;
      ghost var kept, kpos;
      head, live, kept, kpos := SweepList(tenuredHead, tenured, tpos, marks);
      MarkedAre(tenured, marks);
      tenuredHead, tenured, tpos := head, kept, kpos;
    }

    /** Both lists are swept, the nursery first, and what is left of it is promoted. */
    method SweepBoth(ghost marks: set<GcObj>)
      requires Lists() && marks == Marks(Objects())
      modifies this`nurseryHead, this`tenuredHead, this`nursery, this`tenured, this`npos, this`tpos, this`internTable
      modifies nursery`marked, nursery`isOld, nursery`dirty, nursery`gcNext, tenured`marked, tenured`dirty, tenured`gcNext
      ensures Lists() && nursery == [] && tenured == Marked(old(tenured), marks) + Marked(old(nursery), marks) && Clean(tenured)
      ensures internTable == old(internTable) - DeadNames(old(nursery), marks) - DeadNames(old(tenured), marks)
    {
      assert forall o | o in tenured :: o !in nursery && (o.marked <==> o in marks);
      SweepNursery(marks);
      SweepRest(marks);
    }

    /** The tenured list is swept and the survivors of the nursery go to its end. */
    method SweepRest(ghost marks: set<GcObj>)
      requires Lists() && (forall o | o in tenured :: o.marked <==> o in marks) && forall o | o in nursery :: !o.marked
      modifies this`nurseryHead, this`tenuredHead, this`nursery, this`tenured, this`npos, this`tpos, this`internTable
      modifies nursery`isOld, nursery`dirty, tenured`marked, tenured`dirty, tenured`gcNext
      ensures Lists() && nursery == [] && tenured == Marked(old(tenured), marks) + old(nursery) && Clean(tenured)
      ensures internTable == old(internTable) - DeadNames(old(tenured), marks)
    {
      SweepTenured(marks);
      PromoteNursery();
    }

    method SweepAll(ghost marks: set<GcObj>)
      requires Lists() && marks == Marks(Objects())
      modifies this`nurseryHead, this`tenuredHead, this`nursery, this`tenured, this`npos, this`tpos, this`internTable
      modifies nursery`marked, nursery`isOld, nursery`dirty, nursery`gcNext, tenured`marked, tenured`dirty, tenured`gcNext
      ensures Lists() && nursery == [] && OldObjects() == marks && Clean(tenured)
      ensures internTable == old(internTable) - DeadNames(old(nursery), marks) - DeadNames(old(tenured), marks)
    {
      BothMarked(tenured, nursery, marks);
      SweepBoth(marks);
    }

    /** Sweeping what marking left out. */
    method FinishFull(ghost marks: set<GcObj>)
      requires Lists() && Interned() && marks == Marks(Objects())
      modifies this, nursery`marked, nursery`isOld, nursery`dirty, nursery`gcNext, tenured`marked, tenured`dirty, tenured`gcNext
      ensures roots == old(roots) && rememberedSet == []
      ensures Lists() && nursery == [] && OldObjects() == marks && Clean(tenured)
      ensures InternedIn(internTable, OldObjects())
    {
      InternedBoth(internTable, Objects(), nursery, tenured, marks);
      rememberedSet, allocCount := [], 0;
      SweepAll(marks);
    }

    method FinishFullKeeping(ghost marks: set<GcObj>)
      requires Lists() && Interned() && marks == Marks(Objects()) && Keeps(roots, marks)
      modifies this, nursery`marked, nursery`isOld, nursery`dirty, nursery`gcNext, tenured`marked, tenured`dirty, tenured`gcNext
      ensures Valid() && roots == old(roots) && rememberedSet == [] && nursery == [] && Objects() == marks
    {
      FinishFull(marks);
      forall o | o in marks ensures Edges(o) <= marks {
        assert old(Edges(o)) <= marks;
      }
      AllTenured(marks);
    }

    method CollectAll(ghost full: Graph<GcObj>)
      requires Snapshot(Objects(), false, full) && full.Keys == Objects() && Targets(roots) <= Objects() && Marks(Objects()) == {}
      requires Lists() && Interned()
      modifies this, nursery`marked, nursery`isOld, nursery`dirty, nursery`gcNext, tenured`marked, tenured`dirty, tenured`gcNext
      ensures Valid() && roots == old(roots) && nursery == [] && rememberedSet == []
      ensures Objects() == (set x | x in full && Reachable(full, Targets(roots), x))
    {
      ghost var marks := MarkFull(full);
      FinishFullKeeping(marks);
    }

    /** Frees exactly what references do not lead to from the roots, in an arbitrary
        cyclic heap, and makes the rest old; no value held by an object changes. */
    method GcFull()
      requires Valid()
      modifies this, nursery`marked, nursery`isOld, nursery`dirty, nursery`gcNext, tenured`marked, tenured`dirty, tenured`gcNext
      ensures Valid() && roots == old(roots) && nursery == [] && rememberedSet == []
      ensures Objects() == old(HeldByRoots())
    {
      ghost var full := FullGraph();
      FullStart(full);
      CollectAll(full);
    }

    // ---- mutators ----

    constructor ()
      ensures Valid() && nursery == [] && tenured == [] && roots == []
    {
      nurseryHead, tenuredHead, rememberedSet, internTable, roots, allocCount := null, null, [], map[], [], 0;
      nursery, tenured, npos, tpos := [], [], map[], map[];
    }

    /** A new object heads the nursery. */
    method Link(gcType: GcType, data: string, captures: seq<Val>, env: GcObj?) returns (o: GcObj)
      requires Lists()
      modifies this`nurseryHead, this`nursery, this`npos, this`allocCount
      ensures Lists() && fresh(o) && nursery == [o] + old(nursery) && !o.isOld && !o.dirty && !o.marked
      ensures o.gcType == gcType && o.data == data && o.captures == captures && o.env == env && o.slots == [] && o.buckets == []
    {
      o := new GcObj(gcType, data, captures, env, nurseryHead);
      ghost var before := nursery;
      nurseryHead := o;
      allocCount := allocCount + 1;
      nursery, npos := [o] + nursery, (map x | x in npos :: npos[x] + 1)[o := 0];
      forall i {:trigger nursery[i]} | 0 <= i < |nursery| ensures nursery[i] in npos && npos[nursery[i]] == i {
        if i > 0 { assert nursery[i] == before[i - 1]; }
      }
    }

    method LinkBeside(gcType: GcType, data: string, captures: seq<Val>, env: GcObj?, ghost live: set<GcObj>) returns (o: GcObj)
      requires Lists() && Keeps(roots, live) && Barriered(live, tenured, rememberedSet) && Marks(live) == {}
      requires Targets(captures) <= live && (env != null ==> env in live)
      modifies this`nurseryHead, this`nursery, this`npos, this`allocCount
      ensures Lists() && fresh(o) && nursery == [o] + old(nursery) && !o.isOld && !o.dirty && !o.marked
      ensures o.gcType == gcType && o.data == data && o.captures == captures && o.env == env && o.slots == [] && o.buckets == []
      ensures Keeps(roots, live) && Barriered(live, tenured, rememberedSet) && Marks(live) == {}
      ensures o !in live && Edges(o) <= live
    {
      o := Link(gcType, data, captures, env);
    }

    method Allocate(gcType: GcType, data: string, captures: seq<Val>, env: GcObj?) returns (o: GcObj)
      requires Valid() && Targets(captures) <= Objects() && (env != null ==> env in Objects())
      modifies this`nurseryHead, this`nursery, this`npos, this`allocCount
      ensures Valid() && fresh(o) && nursery == [o] + old(nursery)
      ensures o.gcType == gcType && o.data == data && o.captures == captures && o.env == env
    {
      ghost var live := Objects();
      o := LinkBeside(gcType, data, captures, env, live);
      SoundWithNew(live, tenured, rememberedSet, roots, o);
      assert Objects() == live + {o};
    }

    /** The live string of these contents, made when there is none. */
    method Intern(data: string) returns (o: GcObj)
      requires Valid()
      modifies this`nurseryHead, this`nursery, this`npos, this`allocCount, this`internTable
      ensures Valid() && o in Objects() && o.gcType.StringObj? && o.data == data
      ensures internTable == old(internTable)[data := o] && old(Objects()) <= Objects()
      ensures data in old(internTable) ==> o == old(internTable)[data] && nursery == old(nursery)
    {
      if data in internTable { return internTable[data]; }
      o := Allocate(StringObj, data, [], null);
      AddInterned(o);
    }

    method AddInterned(o: GcObj)
      requires Valid() && o in Objects() && o.gcType.StringObj?
      modifies this`internTable
      ensures Valid() && internTable == old(internTable)[o.data := o]
    {
      internTable := internTable[o.data := o];
    }

    /** Remembers an old object that is given its first reference to a young one. */
    method WriteBarrier(container: GcObj, v: Val)
      modifies container`dirty, this`rememberedSet
      ensures var fires := container.isOld && v.Ref? && !v.obj.isOld && !old(container.dirty);
              && container.dirty == (old(container.dirty) || fires)
              && rememberedSet == if fires then old(rememberedSet) + [container] else old(rememberedSet)
    {
      if !container.isOld || v.Plain? || v.obj.isOld { return; }
      if !container.dirty {
        container.dirty := true;
        rememberedSet := rememberedSet + [container];
      }
    }

    ghost function ScannedGraph(): Graph<GcObj>
      reads this`nursery, this`tenured, Objects()`slots, Objects()`buckets, Objects()`captures
    {
      map o | o in Objects() :: Scanned(o)
    }

    /** Only `c` may have other scanned edges than `scanned` says, at most `added` more. */
    ghost predicate Stored(scanned: Graph<GcObj>, c: GcObj, added: set<GcObj>)
      reads this`nursery, this`tenured, Objects()`slots, Objects()`buckets, Objects()`captures
    {
      && scanned.Keys == Objects() && c in scanned
      && (forall o | o in Objects() && o != c :: Scanned(o) == scanned[o])
      && Scanned(c) <= scanned[c] + added
    }

    /** The edges set when objects were made lead to live objects, from old ones to old. */
    ghost predicate FixedSound()
      reads this`nursery, this`tenured, Objects()`captures, Objects()`isOld
    {
      && (forall o | o in Objects() :: Fixed(o) <= Objects())
      && (forall o | o in tenured :: Fixed(o) * Enterable(Objects(), true) == {})
    }

    /** The barrier has done its work: of the old objects, those not remembered before
        lead to young ones only if they were given such an edge and are remembered now. */
    ghost predicate Remembers(scanned: Graph<GcObj>, rem0: seq<GcObj>, c: GcObj, added: set<GcObj>)
      reads this`nursery, this`tenured, this`rememberedSet, Objects()`isOld, Objects()`dirty
    {
      && (forall o | o in rem0 :: o in tenured)
      && (forall o | o in tenured && o in scanned && o !in rem0 :: scanned[o] * Enterable(Objects(), true) == {})
      && (forall o | o in nursery :: !o.dirty)
      && (forall o | o in tenured :: o.dirty <==> o in rememberedSet)
      && (rememberedSet == rem0 || (c in tenured && rememberedSet == rem0 + [c]))
      && (c in tenured && added * Enterable(Objects(), true) != {} ==> c in rememberedSet)
    }

    /** A store keeps the invariant if the barrier has seen what was added. */
    lemma ValidAfterStore(scanned: Graph<GcObj>, rem0: seq<GcObj>, c: GcObj, added: set<GcObj>)
      requires StoreSound(scanned, c, added) && Remembers(scanned, rem0, c, added)
      ensures Valid()
    {
    }

    /** What a store leaves alone or only adds to. */
    ghost predicate StoreSound(scanned: Graph<GcObj>, c: GcObj, added: set<GcObj>)
      reads this`nurseryHead, this`tenuredHead, this`nursery, this`tenured, this`npos, this`tpos, this`roots, this`internTable
      reads Objects()`slots, Objects()`buckets, Objects()`captures, Objects()`isOld, Objects()`marked, Objects()`gcNext
    {
      && Lists() && Interned() && Marks(Objects()) == {} && Targets(roots) <= Objects() && FixedSound()
      && Stored(scanned, c, added) && added <= Objects() && forall o | o in scanned :: scanned[o] <= Objects()
    }

    /** The barrier for one more of the references that were stored. */
    method Note(c: GcObj, v: Val, ghost scanned: Graph<GcObj>, ghost rem0: seq<GcObj>, ghost noted: set<GcObj>)
      requires Remembers(scanned, rem0, c, noted) && c in Objects() && Starts(v) <= Objects()
      requires forall o | o in tenured :: o.isOld
      requires forall o | o in nursery :: !o.isOld
      modifies c`dirty, this`rememberedSet
      ensures Remembers(scanned, rem0, c, noted + Starts(v))
    {
      WriteBarrier(c, v);
    }

    method NoteStored(c: GcObj, v: Val, ghost scanned: Graph<GcObj>, ghost rem0: seq<GcObj>, ghost noted: set<GcObj>, ghost added: set<GcObj>)
      requires StoreSound(scanned, c, added) && Remembers(scanned, rem0, c, noted) && Starts(v) <= added
      modifies c`dirty, this`rememberedSet
      ensures StoreSound(scanned, c, added) && Remembers(scanned, rem0, c, noted + Starts(v))
    {
      Note(c, v, scanned, rem0, noted);
    }

    /** The barrier for the one value that was stored, after which the invariant holds again. */
    method BarrierOne(c: GcObj, v: Val, ghost scanned: Graph<GcObj>, ghost rem0: seq<GcObj>)
      requires StoreSound(scanned, c, Starts(v)) && Remembers(scanned, rem0, c, {})
      modifies c`dirty, this`rememberedSet
      ensures Valid()
    {
      NoteStored(c, v, scanned, rem0, {}, Starts(v));
      assert {} + Starts(v) == Starts(v);
      ValidAfterStore(scanned, rem0, c, Starts(v));
    }

    /** The barriers for a key and a value. */
    method BarrierBoth(t: GcObj, key: Val, v: Val, ghost scanned: Graph<GcObj>, ghost rem0: seq<GcObj>, ghost added: set<GcObj>)
      requires StoreSound(scanned, t, added) && Remembers(scanned, rem0, t, {}) && added == Starts(key) + Starts(v)
      modifies t`dirty, this`rememberedSet
      ensures Valid()
    {
      NoteBoth(t, key, v, scanned, rem0, added);
      ValidAfterStore(scanned, rem0, t, added);
    }

    lemma BeforeStore(scanned: Graph<GcObj>, c: GcObj, added: set<GcObj>)
      requires Valid() && scanned == ScannedGraph() && c in Objects() && added <= Objects()
      ensures StoreSound(scanned, c, added) && Remembers(scanned, rememberedSet, c, {})
    {
    }

    /** A store into a closure's captures, followed by the barrier. */
    method SetCapture(c: GcObj, idx: nat, v: Val)
      requires Valid() && c in Objects() && c.gcType.ClosureObj? && idx < |c.captures| && Starts(v) <= Objects()
      modifies c`captures, c`dirty, this`rememberedSet
      ensures Valid() && c.captures == old(c.captures)[idx := v]
    {
      ghost var scanned, rem0 := ScannedGraph(), rememberedSet;
      BeforeStore(scanned, c, Starts(v));
      StoreCapture(c, idx, v, scanned);
      BarrierOne(c, v, scanned, rem0);
    }

    method StoreCapture(c: GcObj, idx: nat, v: Val, ghost scanned: Graph<GcObj>)
      requires StoreSound(scanned, c, Starts(v)) && Scanned(c) == scanned[c] && c.gcType.ClosureObj? && idx < |c.captures|
      modifies c`captures
      ensures StoreSound(scanned, c, Starts(v)) && c.captures == old(c.captures)[idx := v]
    {
      c.captures := c.captures[idx := v];
      assert Scanned(c) <= scanned[c] + Starts(v);
    }

    /** The array part of a table: grown with empty slots as far as needed, then stored
        to, followed by the barrier for the value. */
    method SetSlot(t: GcObj, k: nat, v: Val, grown: seq<Val>)
      requires Valid() && t in Objects() && t.gcType.TableObj? && Starts(v) <= Objects()
      requires t.slots <= grown && k < |grown| && forall i :: |t.slots| <= i < |grown| ==> grown[i] == Plain(0)
      modifies t`slots, t`dirty, this`rememberedSet
      ensures Valid() && t.slots == grown[k := v]
    {
      ghost var scanned, rem0 := ScannedGraph(), rememberedSet;
      BeforeStore(scanned, t, Starts(v));
      StoreSlot(t, k, v, grown, scanned);
      BarrierOne(t, v, scanned, rem0);
    }

    method StoreSlot(t: GcObj, k: nat, v: Val, grown: seq<Val>, ghost scanned: Graph<GcObj>)
      requires StoreSound(scanned, t, Starts(v)) && Scanned(t) == scanned[t] && t.gcType.TableObj?
      requires t.slots <= grown && k < |grown| && forall i :: |t.slots| <= i < |grown| ==> grown[i] == Plain(0)
      modifies t`slots
      ensures StoreSound(scanned, t, Starts(v)) && t.slots == grown[k := v]
    {
      ghost var before := t.slots;
      t.slots := grown[k := v];
      assert Targets(t.slots) <= Targets(before) + Starts(v);
      assert Scanned(t) <= scanned[t] + Starts(v);
    }

    /** The hash part of a table: rehashed if need be, an entry written, and the barrier
        for the key and for the value. Where entries go is not the collector's concern. */
    method SetEntry(t: GcObj, j: nat, key: Val, v: Val, rehashed: seq<Entry>)
      requires Valid() && t in Objects() && t.gcType.TableObj? && Starts(key) + Starts(v) <= Objects()
      requires j < |rehashed| && EntryTargets(rehashed) <= EntryTargets(t.buckets)
      modifies t`buckets, t`dirty, this`rememberedSet
      ensures Valid() && t.buckets == rehashed[j := Occupied(key, v)]
    {
      ghost var scanned, rem0, added := ScannedGraph(), rememberedSet, Starts(key) + Starts(v);
      BeforeStore(scanned, t, added);
      StoreEntry(t, j, key, v, rehashed, scanned);
      BarrierBoth(t, key, v, scanned, rem0, added);
    }

    lemma UpdatedEntryTargets(es: seq<Entry>, j: nat, key: Val, v: Val)
      requires j < |es|
      ensures EntryTargets(es[j := Occupied(key, v)]) <= EntryTargets(es) + Starts(key) + Starts(v)
    {
    }

    method StoreEntry(t: GcObj, j: nat, key: Val, v: Val, rehashed: seq<Entry>, ghost scanned: Graph<GcObj>)
      requires StoreSound(scanned, t, Starts(key) + Starts(v)) && Scanned(t) == scanned[t] && t.gcType.TableObj?
      requires j < |rehashed| && EntryTargets(rehashed) <= EntryTargets(t.buckets)
      modifies t`buckets
      ensures StoreSound(scanned, t, Starts(key) + Starts(v)) && t.buckets == rehashed[j := Occupied(key, v)]
    {
      UpdatedEntryTargets(rehashed, j, key, v);
      t.buckets := rehashed[j := Occupied(key, v)];
      assert Scanned(t) <= scanned[t] + (Starts(key) + Starts(v));
    }

    method NoteBoth(c: GcObj, key: Val, v: Val, ghost scanned: Graph<GcObj>, ghost rem0: seq<GcObj>, ghost added: set<GcObj>)
      requires StoreSound(scanned, c, added) && Remembers(scanned, rem0, c, {}) && added == Starts(key) + Starts(v)
      modifies c`dirty, this`rememberedSet
      ensures StoreSound(scanned, c, added) && Remembers(scanned, rem0, c, added)
    {
      ghost var noted := {} + Starts(key);
      assert noted + Starts(v) == added;
      NoteStored(c, key, scanned, rem0, {}, added);
      NoteStored(c, v, scanned, rem0, noted, added);
    }

    /** A table's parts replaced by ones that refer to nothing new but a key and a value,
        followed by the barrier for both. */
    method SetTable(t: GcObj, slots: seq<Val>, buckets: seq<Entry>, key: Val, v: Val)
      requires Valid() && t in Objects() && t.gcType.TableObj? && Starts(key) + Starts(v) <= Objects()
      requires Targets(slots) + EntryTargets(buckets) <= Scanned(t) + (Starts(key) + Starts(v))
      modifies t`slots, t`buckets, t`dirty, this`rememberedSet
      ensures Valid() && t.slots == slots && t.buckets == buckets
    {
      ghost var added := Starts(key) + Starts(v);
      ghost var scanned, rem0 := StoreFirst(t, slots, buckets, added);
      BarrierBoth(t, key, v, scanned, rem0, added);
    }

    method StoreFirst(t: GcObj, slots: seq<Val>, buckets: seq<Entry>, ghost added: set<GcObj>)
      returns (ghost scanned: Graph<GcObj>, ghost rem0: seq<GcObj>)
      requires Valid() && t in Objects() && t.gcType.TableObj? && added <= Objects()
      requires Targets(slots) + EntryTargets(buckets) <= Scanned(t) + added
      modifies t`slots, t`buckets
      ensures StoreSound(scanned, t, added) && Remembers(scanned, rem0, t, {}) && t.slots == slots && t.buckets == buckets
    {
      scanned, rem0 := ScannedGraph(), rememberedSet;
      BeforeStore(scanned, t, added);
      StoreTable(t, slots, buckets, scanned, added);
    }

    method StoreTable(t: GcObj, slots: seq<Val>, buckets: seq<Entry>, ghost scanned: Graph<GcObj>, ghost added: set<GcObj>)
      requires StoreSound(scanned, t, added) && t.gcType.TableObj?
      requires Targets(slots) + EntryTargets(buckets) <= scanned[t] + added
      modifies t`slots, t`buckets
      ensures StoreSound(scanned, t, added) && t.slots == slots && t.buckets == buckets
    {
      t.slots, t.buckets := slots, buckets;
      assert Scanned(t) == Targets(slots) + EntryTargets(buckets);
    }

    /** Deleting an array entry needs no barrier. */
    method ClearSlot(t: GcObj, k: nat)
      requires Valid() && t in Objects() && t.gcType.TableObj? && k < |t.slots|
      modifies t`slots
      ensures Valid() && t.slots == old(t.slots)[k := Plain(0)]
    {
      ghost var scanned := ScannedGraph();
      BeforeStore(scanned, t, {});
      EraseSlot(t, k, scanned);
      ValidAfterStore(scanned, rememberedSet, t, {});
    }

    method EraseSlot(t: GcObj, k: nat, ghost scanned: Graph<GcObj>)
      requires StoreSound(scanned, t, {}) && Scanned(t) == scanned[t] && t.gcType.TableObj? && k < |t.slots|
      modifies t`slots
      ensures StoreSound(scanned, t, {}) && t.slots == old(t.slots)[k := Plain(0)]
    {
      ghost var before := t.slots;
      t.slots := t.slots[k := Plain(0)];
      assert Targets(t.slots) <= Targets(before);
    }

    /** Nor does deleting a hash entry. */
    method ClearEntry(t: GcObj, j: nat)
      requires Valid() && t in Objects() && t.gcType.TableObj? && j < |t.buckets|
      modifies t`buckets
      ensures Valid() && t.buckets == old(t.buckets)[j := Tombstone]
    {
      ghost var scanned := ScannedGraph();
      BeforeStore(scanned, t, {});
      EraseEntry(t, j, scanned);
      ValidAfterStore(scanned, rememberedSet, t, {});
    }

    method EraseEntry(t: GcObj, j: nat, ghost scanned: Graph<GcObj>)
      requires StoreSound(scanned, t, {}) && Scanned(t) == scanned[t] && t.gcType.TableObj? && j < |t.buckets|
      modifies t`buckets
      ensures StoreSound(scanned, t, {}) && t.buckets == old(t.buckets)[j := Tombstone]
    {
      ghost var before := t.buckets;
      t.buckets := t.buckets[j := Tombstone];
      assert EntryTargets(t.buckets) <= EntryTargets(before);
    }

    /** The running program holds other live values than before. */
    method SetRoots(vs: seq<Val>)
      requires Valid() && Targets(vs) <= Objects()
      modifies this`roots
      ensures Valid() && roots == vs
    {
      roots := vs;
    }
  }

  lemma JoinPositions(a: seq<GcObj>, apos: map<GcObj, nat>, b: seq<GcObj>, bpos: map<GcObj, nat>) returns (pos: map<GcObj, nat>)
    requires Positions(a, apos) && Positions(b, bpos) && forall o | o in b :: o !in a
    ensures Positions(a + b, pos)
  {
    pos := map o | o in a + b :: if o in a then (if o in apos then apos[o] else 0) else (if o in bpos then |a| + bpos[o] else 0);
    forall i {:trigger (a + b)[i]} | 0 <= i < |a + b| ensures (a + b)[i] in pos && pos[(a + b)[i]] == i {
      if i < |a| { assert (a + b)[i] == a[i]; } else { assert (a + b)[i] == b[i - |a|]; }
    }
  }
}
