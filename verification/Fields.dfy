/** What the fields of objects hold, and what can be reached through them, without the
    collector's notion of an edge. */
module Fields {
  import opened Reachability
  import opened Heap

  /** A field of `o` that belongs to its kind holds `x`. */
  ghost predicate Refers(o: GcObj, x: GcObj)
    reads o`slots, o`buckets, o`captures
  {
    match o.gcType
    case TableObj => InSlots(o.slots, x) || InBuckets(o.buckets, x)
    case ClosureObj => InSlots(o.captures, x) || o.env == x
    case FnObj => InSlots(o.captures, x)
    case StringObj => false
    case Leaf => false
  }

  ghost predicate InSlots(vs: seq<Val>, x: GcObj) {
    exists i :: 0 <= i < |vs| && vs[i] == Ref(x)
  }

  ghost predicate InBuckets(es: seq<Entry>, x: GcObj) {
    exists i :: 0 <= i < |es| && es[i].Occupied? && (es[i].key == Ref(x) || es[i].val == Ref(x))
  }

  /** The collector's edges are the references in the fields. */
  lemma EdgeIsReference(o: GcObj, x: GcObj)
    ensures x in Edges(o) <==> Refers(o, x)
  {
    TargetIsSlot(o.slots, x);
    TargetIsSlot(o.captures, x);
    TargetIsBucket(o.buckets, x);
  }

  lemma TargetIsSlot(vs: seq<Val>, x: GcObj)
    ensures x in Targets(vs) <==> InSlots(vs, x)
  {
  }

  lemma TargetIsBucket(es: seq<Entry>, x: GcObj)
    ensures x in EntryTargets(es) <==> InBuckets(es, x)
  {
  }

  /** What at most `n` references lead to from `starts`, without leaving `objs`. */
  ghost function Led(objs: set<GcObj>, starts: set<GcObj>, n: nat): set<GcObj>
    reads objs`slots, objs`buckets, objs`captures
  {
    if n == 0 then starts
    else
      var nearer := Led(objs, starts, n - 1);
      nearer + set x | x in objs && exists y | y in objs && y in nearer :: Refers(y, x)
  }

  /** Every object of `objs` that references lead to from `starts`. */
  ghost function Held(objs: set<GcObj>, starts: set<GcObj>): set<GcObj>
    reads objs`slots, objs`buckets, objs`captures
  {
    set x | x in objs && exists n: nat :: x in Led(objs, starts, n)
  }

  /** That is reachability in the graph of edges among `objs`. */
  lemma {:induction false} LedIsReach(g: Graph<GcObj>, objs: set<GcObj>, starts: set<GcObj>, n: nat)
    requires starts <= objs <= g.Keys && forall o | o in objs :: g[o] == Edges(o) * objs
    ensures Led(objs, starts, n) == ReachIn(g, starts, n) <= objs
  {
    if n > 0 {
      LedIsReach(g, objs, starts, n - 1);
      var nearer := Led(objs, starts, n - 1);
      forall x, y | x in objs && y in objs && y in nearer ensures Refers(y, x) <==> x in g[y] {
        EdgeIsReference(y, x);
      }
    }
  }

  lemma HeldIsReachable(g: Graph<GcObj>, objs: set<GcObj>, starts: set<GcObj>, x: GcObj)
    requires starts <= objs <= g.Keys && forall o | o in objs :: g[o] == Edges(o) * objs
    ensures x in Held(objs, starts) <==> Reachable(g, starts, x)
  {
    forall n: nat ensures Led(objs, starts, n) == ReachIn(g, starts, n) <= objs { LedIsReach(g, objs, starts, n); }
  }
}
