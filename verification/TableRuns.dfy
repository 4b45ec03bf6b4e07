/** Runs of stores and pushes on a new table, and the integer keys pushes give. */
module TableRuns {
  import opened Wrappers
  import opened NanBox
  import opened Probing
  import opened Table

  datatype Op = SetOp(key: Key, val: Word) | PushOp(val: Word)

  /** `n` is 0, or one more than the largest integer key of `keys`, the non-negative
      ones; no other number is. */
  predicate IsNextFree(n: int, keys: seq<Key>) {
    n >= 0 && (n > 0 ==> IntKey(n - 1) in keys) && forall k | k in keys && k.IntKey? :: k.n < n
  }

  lemma NextFreeIsOne(n: int, m: int, keys: seq<Key>)
    requires IsNextFree(n, keys) && IsNextFree(m, keys)
    ensures n == m
  {
  }

  /** `keys` are the keys the first operations stored under, one each: the key given, or
      for a push the next free integer of all that were ever stored. */
  predicate Follows(ops: seq<Op>, keys: seq<Key>) {
    && |keys| <= |ops|
    && forall i :: 0 <= i < |keys| ==>
         match ops[i]
         case SetOp(k, _) => keys[i] == k
         case PushOp(_) => keys[i].IntKey? && IsNextFree(keys[i].n, keys[..i])
  }

  /** The last value stored under each key. */
  function Latest(ops: seq<Op>, keys: seq<Key>): map<Key, Word>
    requires |keys| <= |ops|
  {
    if keys == [] then map[]
    else Latest(ops, keys[..|keys| - 1])[keys[|keys| - 1] := ops[|keys| - 1].val]
  }

  /** A push needs a key that can be boxed; a zero word under an array key reads as an
      empty slot. */
  predicate Acceptable(op: Op, next: int) {
    match op
    case SetOp(k, v) => IsOccupied(k) && !(IsArrayKey(k) && v == 0)
    case PushOp(v) => InRange(next) && !(next < MAX_ARRAY && v == 0)
  }

  /** One more store under `key`. */
  lemma StoredNext(next: int, keys: seq<Key>, key: Key)
    requires IsNextFree(next, keys)
    ensures IsNextFree(if key.IntKey? && key.n + 1 > next then key.n + 1 else next, keys + [key])
  {
    var next' := if key.IntKey? && key.n + 1 > next then key.n + 1 else next;
    if next' > 0 {
      assert IntKey(next' - 1) in keys + [key];
    }
  }

  /** Over any run on a new table the next integer key is 0 or one more than the largest
      integer key ever stored under, whatever else was stored, and the contents are the
      last values. The run ends early only at an operation that is not acceptable. */
  method Replay(ops: seq<Op>) returns (tbl: BblTable, ghost keys: seq<Key>)
    ensures fresh(tbl) && tbl.Valid() && Follows(ops, keys) && IsNextFree(tbl.nextIntKey, keys)
    ensures tbl.Contents() == Latest(ops, keys)
    ensures |keys| < |ops| ==> !Acceptable(ops[|keys|], tbl.nextIntKey)
  {
    tbl := new BblTable();
    keys := [];
    var i := 0;
    while i < |ops|
      invariant i == |keys| <= |ops| && fresh(tbl) && fresh(tbl.buckets) && fresh(tbl.slots) && tbl.Valid()
      invariant Follows(ops, keys) && IsNextFree(tbl.nextIntKey, keys) && tbl.Contents() == Latest(ops, keys)
    {
      if !Acceptable(ops[i], tbl.nextIntKey) { return; }
      ghost var key := if ops[i].SetOp? then ops[i].key else IntKey(tbl.nextIntKey);
      StoredNext(tbl.nextIntKey, keys, key);
      FollowsNext(ops, keys, key);
      match ops[i] {
        case SetOp(k, v) => tbl.Set(k, v);
        case PushOp(v) => tbl.Push(v);
      }
      keys := keys + [key];
      i := i + 1;
    }
  }

  lemma FollowsNext(ops: seq<Op>, keys: seq<Key>, key: Key)
    requires Follows(ops, keys) && |keys| < |ops|
    requires match ops[|keys|] case SetOp(k, _) => key == k case PushOp(_) => key.IntKey? && IsNextFree(key.n, keys)
    ensures Follows(ops, keys + [key]) && Latest(ops, keys + [key]) == Latest(ops, keys)[key := ops[|keys|].val]
  {
    var more := keys + [key];
    assert more[..|keys|] == keys;
    assert forall i :: 0 <= i <= |keys| ==> more[..i] == keys[..i];
  }

  function Pushes(ops: seq<Op>): nat {
    if ops == [] then 0
    else Pushes(ops[..|ops| - 1]) + if ops[|ops| - 1].PushOp? then 1 else 0
  }

  predicate NamesNoInteger(ops: seq<Op>) {
    forall i :: 0 <= i < |ops| && ops[i].SetOp? ==> !ops[i].key.IntKey?
  }

  /** Where no store names an integer key, the pushes fill 0, 1, 2, ... in order, and no
      other integer key is in use. */
  lemma {:induction false} PushesFill(ops: seq<Op>, keys: seq<Key>, n: nat)
    requires Follows(ops, keys) && NamesNoInteger(ops) && n <= |keys|
    ensures IsNextFree(Pushes(ops[..n]), keys[..n])
    ensures forall i :: 0 <= i < n && ops[i].PushOp? ==> keys[i] == IntKey(Pushes(ops[..i]))
  {
    if n > 0 {
      PushesFill(ops, keys, n - 1);
      var p := Pushes(ops[..n - 1]);
      assert ops[..n][..n - 1] == ops[..n - 1];
      assert keys[..n] == keys[..n - 1] + [keys[n - 1]];
      StoredNext(p, keys[..n - 1], keys[n - 1]);
      if ops[n - 1].PushOp? { NextFreeIsOne(p, keys[n - 1].n, keys[..n - 1]); }
    }
  }

  /** After a store under a string key a push goes to key 0. */
  method PushAfterString(k: Key, v: Word, x: Word) returns (r: Option<Word>, tbl: BblTable)
    requires IsOccupied(k) && !k.IntKey? && x != 0
    ensures r == Some(x) && fresh(tbl) && tbl.Valid() && tbl.Contents() == map[k := v, IntKey(0) := x]
  {
    tbl := new BblTable();
    tbl.Set(k, v);
    tbl.Push(x);
    r := tbl.Get(IntKey(0));
  }
}
