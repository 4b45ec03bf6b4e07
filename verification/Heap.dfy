/** Collectable objects and the marking phase. */
module Heap {
  import opened Reachability

  /** `Leaf` stands for the kinds that hold no values: binaries, structs, vectors
      and user data. */
  datatype GcType = StringObj | TableObj | ClosureObj | FnObj | Leaf

  /** A value word: a reference or anything else. */
  datatype Val = Plain(bits: nat) | Ref(obj: GcObj)

  datatype Entry = Empty | Tombstone | Occupied(key: Val, val: Val)

  class GcObj {
    const gcType: GcType
    const data: string  // of a string
    const env: GcObj?   // of a closure
    var marked: bool
    var isOld: bool
    var dirty: bool
    var gcNext: GcObj?
    var slots: seq<Val>      // of a table
    var buckets: seq<Entry>
    var captures: seq<Val>  // of a closure or a function

    constructor (gcType: GcType, data: string, captures: seq<Val>, env: GcObj?, gcNext: GcObj?)
      ensures this.gcType == gcType && this.data == data && this.captures == captures && this.env == env
      ensures this.gcNext == gcNext && !marked && !isOld && !dirty && slots == [] && buckets == []
    {
      this.gcType, this.data, this.captures, this.env, this.gcNext := gcType, data, captures, env, gcNext;
      marked, isOld, dirty, slots, buckets := false, false, false, [], [];
    }
  }

  // ---- edges ----

  ghost function Targets(vs: seq<Val>): set<GcObj> {
    set i | 0 <= i < |vs| && vs[i].Ref? :: vs[i].obj
  }

  ghost function EntryTargets(es: seq<Entry>): set<GcObj> {
    (set i | 0 <= i < |es| && es[i].Occupied? && es[i].key.Ref? :: es[i].key.obj) +
    (set i | 0 <= i < |es| && es[i].Occupied? && es[i].val.Ref? :: es[i].val.obj)
  }

  /** The edges a minor collection rescans in a remembered object. */
  ghost function Scanned(o: GcObj): set<GcObj>
    reads o`slots, o`buckets, o`captures
  {
    match o.gcType
    case TableObj => Targets(o.slots) + EntryTargets(o.buckets)
    case ClosureObj => Targets(o.captures)
    case _ => {}
  }

  /** The edges set once, when the object is made. */
  ghost function Fixed(o: GcObj): set<GcObj>
    reads o`captures
  {
    match o.gcType
    case ClosureObj => if o.env == null then {} else {o.env}
    case FnObj => Targets(o.captures)
    case _ => {}
  }

  ghost function Edges(o: GcObj): set<GcObj>
    reads o`slots, o`buckets, o`captures
  {
    Scanned(o) + Fixed(o)
  }

  // ---- marking ----

  ghost function Marks(heap: set<GcObj>): set<GcObj>
    reads heap`marked
  {
    set o | o in heap && o.marked
  }

  /** The objects a traversal may enter: a minor collection stays out of old ones. */
  ghost function Enterable(heap: set<GcObj>, minor: bool): set<GcObj>
    reads heap`isOld
  {
    set o | o in heap && !(minor && o.isOld)
  }

  /** `g` is the graph the traversal follows. */
  ghost predicate Snapshot(heap: set<GcObj>, minor: bool, g: Graph<GcObj>)
    reads heap`isOld, heap`slots, heap`buckets, heap`captures
  {
    && g.Keys == heap
    && forall o | o in heap :: Edges(o) <= heap && g[o] == Edges(o) * Enterable(heap, minor)
  }

  ghost function Starts(v: Val): set<GcObj> {
    if v.Ref? then {v.obj} else {}
  }

  /** Marks what `v` refers to and everything it leads to; with `minor`, only young
      objects. */
  method Mark(v: Val, minor: bool, ghost heap: set<GcObj>, ghost g: Graph<GcObj>)
    requires Snapshot(heap, minor, g) && Starts(v) <= heap
    modifies heap`marked
    ensures Traversed(g, Starts(v) * Enterable(heap, minor), old(Marks(heap)), Marks(heap))
    decreases heap - Marks(heap), 0
  {
    ghost var m0 := Marks(heap);
    if v.Plain? || v.obj.marked || (minor && v.obj.isOld) { return; }
    v.obj.marked := true;
    assert Marks(heap) == m0 + {v.obj};
    MarkContents(v.obj, minor, heap, g);
    TraversedNode(g, v.obj, m0, Marks(heap));
    assert Starts(v) * Enterable(heap, minor) == {v.obj};
  }

  /** Marks what an object just marked leads to. */
  method MarkContents(o: GcObj, minor: bool, ghost heap: set<GcObj>, ghost g: Graph<GcObj>)
    requires Snapshot(heap, minor, g) && o in heap
    modifies heap`marked
    ensures Traversed(g, g[o], old(Marks(heap)), Marks(heap))
    decreases heap - Marks(heap), 3
  {
    if o.gcType.TableObj? {
      MarkTable(o, minor, heap, g);
    } else if o.gcType.ClosureObj? {
      MarkClosure(o, minor, heap, g);
    } else if o.gcType.FnObj? {
      MarkEach(o.captures, minor, heap, g);
      assert Targets(o.captures) * Enterable(heap, minor) == g[o];
    } else {
      assert g[o] == {};
    }
  }

  method MarkTable(o: GcObj, minor: bool, ghost heap: set<GcObj>, ghost g: Graph<GcObj>)
    requires Snapshot(heap, minor, g) && o in heap && o.gcType.TableObj?
    modifies heap`marked
    ensures Traversed(g, g[o], old(Marks(heap)), Marks(heap))
    decreases heap - Marks(heap), 2, 1
  {
    ghost var m, elig := Marks(heap), Enterable(heap, minor);
    MarkEach(o.slots, minor, heap, g);
    ghost var m1 := Marks(heap);
    MarkEntries(o.buckets, minor, heap, g);
    TraversedThen(g, Targets(o.slots) * elig, EntryTargets(o.buckets) * elig, m, m1, Marks(heap));
    assert Targets(o.slots) * elig + EntryTargets(o.buckets) * elig == g[o];
  }

  method MarkClosure(o: GcObj, minor: bool, ghost heap: set<GcObj>, ghost g: Graph<GcObj>)
    requires Snapshot(heap, minor, g) && o in heap && o.gcType.ClosureObj?
    modifies heap`marked
    ensures Traversed(g, g[o], old(Marks(heap)), Marks(heap))
    decreases heap - Marks(heap), 2
  {
    ghost var m, elig := Marks(heap), Enterable(heap, minor);
    MarkEach(o.captures, minor, heap, g);
    ghost var m1 := Marks(heap);
    MarkEnv(o, minor, heap, g);
    TraversedThen(g, Targets(o.captures) * elig, Fixed(o) * elig, m, m1, Marks(heap));
    assert Targets(o.captures) * elig + Fixed(o) * elig == g[o];
  }

  method MarkEnv(o: GcObj, minor: bool, ghost heap: set<GcObj>, ghost g: Graph<GcObj>)
    requires Snapshot(heap, minor, g) && o in heap && o.gcType.ClosureObj?
    modifies heap`marked
    ensures Traversed(g, Fixed(o) * Enterable(heap, minor), old(Marks(heap)), Marks(heap))
    decreases heap - Marks(heap), 1
  {
    if o.env != null && !o.env.marked && !(minor && o.env.isOld) {
      Mark(Ref(o.env), minor, heap, g);
    }
  }

  method MarkEach(vs: seq<Val>, minor: bool, ghost heap: set<GcObj>, ghost g: Graph<GcObj>)
    requires Snapshot(heap, minor, g) && Targets(vs) <= heap
    modifies heap`marked
    ensures Traversed(g, Targets(vs) * Enterable(heap, minor), old(Marks(heap)), Marks(heap))
    decreases heap - Marks(heap), 1
  {
    ghost var m0, elig := Marks(heap), Enterable(heap, minor);
    assert Targets(vs[..0]) == {};
    for i := 0 to |vs|
      invariant Snapshot(heap, minor, g) && Enterable(heap, minor) == elig
      invariant Traversed(g, Targets(vs[..i]) * elig, m0, Marks(heap))
    {
      ghost var m1 := Marks(heap);
      assert Starts(vs[i]) <= Targets(vs);
      Mark(vs[i], minor, heap, g);
      TargetsStep(vs, i);
      TraversedThen(g, Targets(vs[..i]) * elig, Starts(vs[i]) * elig, m0, m1, Marks(heap));
      assert Targets(vs[..i]) * elig + Starts(vs[i]) * elig == Targets(vs[..i + 1]) * elig;
    }
    assert vs[..|vs|] == vs;
  }

  lemma TargetsStep(vs: seq<Val>, i: nat)
    requires i < |vs|
    ensures Targets(vs[..i + 1]) == Targets(vs[..i]) + Starts(vs[i])
  {
    var a, b := vs[..i], vs[..i + 1];
    assert b[i] == vs[i];
    forall o | o in Targets(b) ensures o in Targets(a) + Starts(vs[i]) {
      var k :| 0 <= k < |b| && b[k].Ref? && b[k].obj == o;
      if k < i { assert a[k] == b[k]; }
    }
    forall o | o in Targets(a) ensures o in Targets(b) {
      var k :| 0 <= k < |a| && a[k].Ref? && a[k].obj == o;
      assert b[k] == a[k];
    }
  }

  ghost function EntryStarts(e: Entry): set<GcObj> {
    if e.Occupied? then Starts(e.key) + Starts(e.val) else {}
  }

  lemma EntryTargetsStep(es: seq<Entry>, i: nat)
    requires i < |es|
    ensures EntryTargets(es[..i + 1]) == EntryTargets(es[..i]) + EntryStarts(es[i])
  {
    var a, b := es[..i], es[..i + 1];
    assert b[i] == es[i] && forall k :: 0 <= k < i ==> a[k] == b[k];
    forall o | o in EntryTargets(b) ensures o in EntryTargets(a) + EntryStarts(es[i]) {
      var k :| 0 <= k < |b| && b[k].Occupied? && (b[k].key == Ref(o) || b[k].val == Ref(o));
      if k < i { assert a[k] == b[k]; }
    }
    forall o | o in EntryTargets(a) ensures o in EntryTargets(b) {
      var k :| 0 <= k < |a| && a[k].Occupied? && (a[k].key == Ref(o) || a[k].val == Ref(o));
      assert b[k] == a[k];
    }
  }

  method MarkEntry(e: Entry, minor: bool, ghost heap: set<GcObj>, ghost g: Graph<GcObj>)
    requires Snapshot(heap, minor, g) && EntryStarts(e) <= heap
    modifies heap`marked
    ensures Traversed(g, EntryStarts(e) * Enterable(heap, minor), old(Marks(heap)), Marks(heap))
    decreases heap - Marks(heap), 1
  {
    if e.Occupied? {
      ghost var m1, elig := Marks(heap), Enterable(heap, minor);
      Mark(e.key, minor, heap, g);
      ghost var m2 := Marks(heap);
      Mark(e.val, minor, heap, g);
      TraversedThen(g, Starts(e.key) * elig, Starts(e.val) * elig, m1, m2, Marks(heap));
      assert Starts(e.key) * elig + Starts(e.val) * elig == EntryStarts(e) * elig;
    }
  }

  method MarkEntries(es: seq<Entry>, minor: bool, ghost heap: set<GcObj>, ghost g: Graph<GcObj>)
    requires Snapshot(heap, minor, g) && EntryTargets(es) <= heap
    modifies heap`marked
    ensures Traversed(g, EntryTargets(es) * Enterable(heap, minor), old(Marks(heap)), Marks(heap))
    decreases heap - Marks(heap), 2, 0
  {
    ghost var m0, elig := Marks(heap), Enterable(heap, minor);
    assert EntryTargets(es[..0]) == {};
    for i := 0 to |es|
      invariant Snapshot(heap, minor, g) && Enterable(heap, minor) == elig
      invariant Traversed(g, EntryTargets(es[..i]) * elig, m0, Marks(heap))
    {
      ghost var m1 := Marks(heap);
      EntryTargetsStep(es, i);
      assert EntryStarts(es[i]) <= EntryTargets(es);
      MarkEntry(es[i], minor, heap, g);
      TraversedThen(g, EntryTargets(es[..i]) * elig, EntryStarts(es[i]) * elig, m0, m1, Marks(heap));
      assert EntryTargets(es[..i]) * elig + EntryStarts(es[i]) * elig == EntryTargets(es[..i + 1]) * elig;
    }
    assert es[..|es|] == es;
  }

  // ---- remembered objects ----

  /** Where the edges of `objs` lead. */
  ghost function Successors(g: Graph<GcObj>, objs: seq<GcObj>): set<GcObj> {
    set o, y | o in objs && o in g && y in g[o] :: y
  }

  /** What a minor collection rescans in one remembered object. That is all the
      traversal needs of it, since what was set when it was made is old by now. */
  method MarkScanned(o: GcObj, ghost heap: set<GcObj>, ghost g: Graph<GcObj>)
    requires Snapshot(heap, true, g) && o in heap && Fixed(o) * Enterable(heap, true) == {}
    modifies heap`marked
    ensures Traversed(g, g[o], old(Marks(heap)), Marks(heap))
  {
    ghost var elig := Enterable(heap, true);
    if o.gcType.TableObj? {
      MarkTable(o, true, heap, g);
    } else if o.gcType.ClosureObj? {
      MarkEach(o.captures, true, heap, g);
      assert Targets(o.captures) * elig == g[o];
    } else {
      assert g[o] == {};
    }
  }

  /** The objects are in the heap, and nothing set when they were made is young. */
  ghost predicate Rescannable(rs: seq<GcObj>, heap: set<GcObj>)
    reads heap`isOld, rs`captures
  {
    forall o | o in rs :: o in heap && Fixed(o) * Enterable(heap, true) == {}
  }

  lemma SuccessorsStep(g: Graph<GcObj>, rs: seq<GcObj>, i: nat)
    requires i < |rs| && rs[i] in g
    ensures Successors(g, rs[..i + 1]) == Successors(g, rs[..i]) + g[rs[i]]
  {
    assert rs[..i + 1] == rs[..i] + [rs[i]];
  }

  method MarkRemembered(rs: seq<GcObj>, ghost heap: set<GcObj>, ghost g: Graph<GcObj>)
    requires Snapshot(heap, true, g) && Rescannable(rs, heap)
    modifies heap`marked
    ensures Traversed(g, Successors(g, rs), old(Marks(heap)), Marks(heap))
  {
    ghost var m0 := Marks(heap);
    for i := 0 to |rs|
      invariant Snapshot(heap, true, g) && Rescannable(rs, heap)
      invariant Traversed(g, Successors(g, rs[..i]), m0, Marks(heap))
    {
      ghost var m1 := Marks(heap);
      MarkScanned(rs[i], heap, g);
      SuccessorsStep(g, rs, i);
      TraversedThen(g, Successors(g, rs[..i]), g[rs[i]], m0, m1, Marks(heap));
    }
    assert rs[..|rs|] == rs;
  }
}
