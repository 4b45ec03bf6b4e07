/** The string methods split, join and replace; split fills a table, join reads
    one. */
module Strings {
  import opened Wrappers
  import opened NanBox
  import opened Probing
  import opened Table

  // ---- searching ----

  /** `pat` stands in `s` at `i`. */
  predicate OccursAt(s: string, pat: string, i: nat) {
    i + |pat| <= |s| && s[i..i + |pat|] == pat
  }

  /** Where `pat` first stands at or after `pos`. */
  function Find(s: string, pat: string, pos: nat): (r: Option<nat>)
    requires pos <= |s|
    ensures r.Some? ==> pos <= r.value && r.value + |pat| <= |s|
    decreases |s| - pos
  {
    if OccursAt(s, pat, pos) then Some(pos)
    else if pos == |s| then None
    else Find(s, pat, pos + 1)
  }

  predicate NoneBetween(s: string, pat: string, lo: nat, hi: nat) {
    forall k :: lo <= k < hi ==> !OccursAt(s, pat, k)
  }

  /** The match found is the first, and none is found only when there is none. */
  lemma {:induction false} FindTells(s: string, pat: string, pos: nat)
    requires pos <= |s|
    ensures match Find(s, pat, pos)
            case Some(i) => OccursAt(s, pat, i) && NoneBetween(s, pat, pos, i)
            case None => NoneBetween(s, pat, pos, |s| + 1)
    decreases |s| - pos
  {
    if !OccursAt(s, pat, pos) && pos < |s| {
      FindTells(s, pat, pos + 1);
    }
  }

  lemma OccursInRest(s: string, pat: string, pos: nat, i: nat)
    requires pos <= |s|
    ensures OccursAt(s[pos..], pat, i) <==> OccursAt(s, pat, pos + i)
  {
    if pos + i + |pat| <= |s| {
      assert s[pos..][i..i + |pat|] == s[pos + i..pos + i + |pat|];
    }
  }

  lemma {:induction false} FindShifted(s: string, pat: string, cut: nat, pos: nat)
    requires cut <= pos <= |s|
    ensures Find(s, pat, pos) == match Find(s[cut..], pat, pos - cut)
                                 case Some(i) => Some(cut + i)
                                 case None => None
    decreases |s| - pos
  {
    var rest, at := s[cut..], pos - cut;
    OccursInRest(s, pat, cut, at);
    if !OccursAt(s, pat, pos) && pos < |s| {
      FindShifted(s, pat, cut, pos + 1);
      assert Find(s, pat, pos) == Find(s, pat, pos + 1);
      assert Find(rest, pat, at) == Find(rest, pat, at + 1);
    }
  }

  /** Searching from `pos` is searching what is left. */
  lemma FindInRest(s: string, pat: string, pos: nat)
    requires pos <= |s|
    ensures Find(s, pat, pos) == match Find(s[pos..], pat, 0)
                                 case Some(i) => Some(pos + i)
                                 case None => None
  {
    FindShifted(s, pat, pos, pos);
  }

  // ---- what splitting and joining mean ----

  /** Cut at the leftmost separator, and again behind it. The forwarding layers
      keep the definition from being unfolded everywhere; `SplitUnfolds` does. */
  function Split(s: string, sep: string): (ps: seq<string>)
    requires |sep| > 0
    ensures |ps| > 0
    decreases |s|, 2
  {
    SplitSealed(s, sep)
  }

  function SplitSealed(s: string, sep: string): (ps: seq<string>)
    requires |sep| > 0
    ensures |ps| > 0
    decreases |s|, 1
  {
    SplitDef(s, sep)
  }

  function SplitDef(s: string, sep: string): (ps: seq<string>)
    requires |sep| > 0
    ensures |ps| > 0
    decreases |s|, 0
  {
    match Find(s, sep, 0)
    case None => [s]
    case Some(i) => [s[..i]] + Split(s[i + |sep|..], sep)
  }

  lemma SplitUnfolds(s: string, sep: string)
    requires |sep| > 0
    ensures match Find(s, sep, 0)
            case None => Split(s, sep) == [s]
            case Some(i) => Split(s, sep) == [s[..i]] + Split(s[i + |sep|..], sep)
  {
    assert SplitSealed(s, sep) == SplitDef(s, sep);
  }

  function Join(ps: seq<string>, sep: string): string {
    if |ps| == 0 then ""
    else if |ps| == 1 then ps[0]
    else ps[0] + sep + Join(ps[1..], sep)
  }

  lemma JoinFirst(p: string, ps: seq<string>, sep: string)
    requires |ps| > 0
    ensures Join([p] + ps, sep) == p + sep + Join(ps, sep)
  {
    assert ([p] + ps)[1..] == ps;
  }

  lemma CutText(s: string, sep: string, i: nat)
    requires OccursAt(s, sep, i)
    ensures s == s[..i] + sep + s[i + |sep|..]
  {
  }

  /** Joining undoes splitting. */
  lemma {:induction false} JoinSplit(s: string, sep: string)
    requires |sep| > 0
    ensures Join(Split(s, sep), sep) == s
    decreases |s|
  {
    SplitUnfolds(s, sep);
    var found := Find(s, sep, 0);
    if found.Some? {
      var i := found.value;
      var rest := s[i + |sep|..];
      JoinSplit(rest, sep);
      JoinFirst(s[..i], Split(rest, sep), sep);
      FindTells(s, sep, 0);
      CutText(s, sep, i);
    }
  }

  predicate Absent(s: string, pat: string) {
    NoneBetween(s, pat, 0, |s| + 1)
  }

  /** In `p` followed by `sep`, the separator is first found behind `p`. */
  predicate CutHere(p: string, sep: string) {
    NoneBetween(p + sep, sep, 0, |p|)
  }

  lemma PrefixOccurs(s: string, n: nat, pat: string, i: nat)
    requires n <= |s| && OccursAt(s[..n], pat, i)
    ensures OccursAt(s, pat, i)
  {
    assert s[..n][i..i + |pat|] == s[i..i + |pat|];
  }

  lemma FirstPiece(s: string, sep: string, cut: nat)
    requires |sep| > 0 && Find(s, sep, 0) == Some(cut)
    ensures Absent(s[..cut], sep) && CutHere(s[..cut], sep)
  {
    FindTells(s, sep, 0);
    forall i: nat | i <= cut
      ensures !OccursAt(s[..cut], sep, i)
    {
      if OccursAt(s[..cut], sep, i) {
        PrefixOccurs(s, cut, sep, i);
      }
    }
    assert s[..cut] + sep == s[..cut + |sep|];
    forall i: nat | i < cut
      ensures !OccursAt(s[..cut] + sep, sep, i)
    {
      if OccursAt(s[..cut + |sep|], sep, i) {
        PrefixOccurs(s, cut + |sep|, sep, i);
      }
    }
  }

  /** No piece contains the separator, and behind each piece but the last the
      separator stands where it is first to be found. */
  lemma {:induction false} PiecesAreMaximal(s: string, sep: string, k: nat)
    requires |sep| > 0 && k < |Split(s, sep)|
    ensures Absent(Split(s, sep)[k], sep)
    ensures k + 1 < |Split(s, sep)| ==> CutHere(Split(s, sep)[k], sep)
    decreases |s|
  {
    SplitUnfolds(s, sep);
    var found := Find(s, sep, 0);
    if found.None? {
      FindTells(s, sep, 0);
    } else if k == 0 {
      FirstPiece(s, sep, found.value);
    } else {
      PiecesAreMaximal(s[found.value + |sep|..], sep, k - 1);
    }
  }

  lemma {:induction false} JoinMore(ps: seq<string>, p: string, sep: string)
    ensures Join(ps + [p], sep) == if |ps| == 0 then p else Join(ps, sep) + sep + p
  {
    if |ps| > 1 {
      JoinMore(ps[1..], p, sep);
      assert (ps + [p])[1..] == ps[1..] + [p];
    } else if |ps| == 1 {
      assert (ps + [p])[1..] == [p];
    }
  }

  // ---- strings as values ----

  /** A string's word carries a tag, so it is never zero. */
  type StringWord = w: Word | w != 0 witness 1

  /** How the runtime turns strings into words and any word into text. */
  datatype Pool = Pool(box: string -> StringWord, text: Word -> string)

  /** The words of these strings read as the strings. */
  predicate Keeps(pool: Pool, ps: seq<string>) {
    forall i :: 0 <= i < |ps| ==> pool.text(pool.box(ps[i])) == ps[i]
  }

  function FirstIndex(ps: seq<string>, p: string): (i: nat)
    ensures i <= |ps| && (p in ps ==> i < |ps| && ps[i] == p)
  {
    if |ps| == 0 || ps[0] == p then 0 else 1 + FirstIndex(ps[1..], p)
  }

  /** Any number of strings that words can tell apart has such a pool: the word of
      a string is its place among them. */
  lemma SomePoolKeeps(ps: seq<string>) returns (pool: Pool)
    requires |ps| < 0xFFFF_FFFF_FFFF_FFFF
    ensures Keeps(pool, ps)
  {
    pool := Pool(p => 1 + FirstIndex(ps, p) % 0xFFFF_FFFF_FFFF_FFFF,
                 w => if 0 < w <= |ps| then ps[w - 1] else "");
    forall i | 0 <= i < |ps| ensures pool.text(pool.box(ps[i])) == ps[i] {
      assert ps[i] in ps;
    }
  }

  function PieceMap(pool: Pool, ps: seq<string>): map<Key, Word> {
    map i | 0 <= i < |ps| :: IntKey(i) := pool.box(ps[i])
  }

  lemma PieceMapMore(pool: Pool, ps: seq<string>, p: string)
    ensures PieceMap(pool, ps + [p]) == PieceMap(pool, ps)[IntKey(|ps|) := pool.box(p)]
  {
  }

  /** The table maps 0, 1, ... to the pieces. */
  ghost predicate Holds(pool: Pool, tbl: BblTable, ps: seq<string>)
    reads tbl, tbl.buckets, tbl.slots
  {
    && tbl.Valid() && tbl.Contents() == PieceMap(pool, ps) && tbl.nextIntKey == |ps|
    && tbl.slots.Length == LengthFor(|ps|)
  }

  /** The length of an array filled from 0 to `n` - 1. */
  function LengthFor(n: nat): nat
    decreases n, 2
  {
    LengthForSealed(n)
  }

  function LengthForSealed(n: nat): nat
    decreases n, 1
  {
    LengthForDef(n)
  }

  function LengthForDef(n: nat): nat
    decreases n, 0
  {
    if n == 0 then 0 else LengthAfter(LengthFor(n - 1), IntKey(n - 1))
  }

  lemma OpenLength(n: nat)
    ensures LengthFor(n) == if n == 0 then 0 else LengthAfter(LengthFor(n - 1), IntKey(n - 1))
  {
    assert LengthForSealed(n) == LengthForDef(n);
  }

  function Bracket(n: nat): nat {
    if n == 0 then 0 else if n <= 4 then 4 else if n <= 8 then 8 else if n <= 16 then 16 else if n <= 32 then 32
    else if n <= 64 then 64 else if n <= 128 then 128 else if n <= 256 then 256 else if n <= 512 then 512
    else if n <= 1024 then 1024 else if n <= 2048 then 2048 else if n <= 8192 then 8192 else if n <= 32768 then 32768
    else if n <= 131072 then 131072 else if n <= 524288 then 524288 else 2097152
  }

  lemma OneStep(size: nat)
    requires size > 0
    ensures GrownLength(size, size + 1) == if size > 1024 then size * 4 else size * 2
  {
    var factor := if size > 1024 then 4 else 2;
    OpenGrown(size, factor, size + 1);
    OpenGrown(size * factor, factor, size + 1);
  }

  lemma BracketStep(n: nat)
    requires n > 0
    ensures if Bracket(n) == n && n < MAX_ARRAY then Bracket(n + 1) == (if n > 1024 then n * 4 else n * 2)
            else Bracket(n + 1) == Bracket(n) && (Bracket(n) > n || n >= MAX_ARRAY)
  {
  }

  /** Its lengths: powers of two, from 524288 straight to 2097152. */
  lemma {:induction false} LengthForIs(n: nat)
    ensures LengthFor(n) == Bracket(n)
  {
    OpenLength(n);
    if n == 1 {
      OpenLength(0);
      OpenGrown(4, 2, 1);
    } else if n > 1 {
      var size, key := LengthFor(n - 1), IntKey(n - 1);
      LengthForIs(n - 1);
      BracketStep(n - 1);
      if IsArrayKey(key) && n - 1 >= size {
        OneStep(n - 1);
      }
    }
  }

  method EmptyPieces(pool: Pool) returns (tbl: BblTable)
    ensures fresh(tbl) && fresh(tbl.buckets) && fresh(tbl.slots) && Holds(pool, tbl, [])
  {
    tbl := new BblTable();
    OpenLength(0);
    assert tbl.Contents() == PieceMap(pool, []);
  }

  method StorePiece(pool: Pool, tbl: BblTable, ghost ps: seq<string>, idx: nat, piece: string)
    requires Holds(pool, tbl, ps) && idx == |ps|
    modifies tbl, tbl.buckets, tbl.slots
    ensures Holds(pool, tbl, ps + [piece])
    ensures (tbl.buckets == old(tbl.buckets) || fresh(tbl.buckets)) && (tbl.slots == old(tbl.slots) || fresh(tbl.slots))
  {
    PieceMapMore(pool, ps, piece);
    OpenLength(idx + 1);
    tbl.Set(IntKey(idx), pool.box(piece));
  }

  /** An empty separator is refused. */
  method SplitString(pool: Pool, s: string, sep: string) returns (r: Option<BblTable>)
    ensures r.None? <==> |sep| == 0
    ensures r.Some? ==>
      fresh(r.value) && fresh(r.value.buckets) && fresh(r.value.slots) && Holds(pool, r.value, Split(s, sep))
  {
    if |sep| == 0 {
      r := None;
    } else {
      var tbl := EmptyPieces(pool);
      ghost var ps: seq<string> := [];
      var pos: nat, idx, done := 0, 0, false;
      ghost var whole := Split(s, sep);
      SplitStart(s, sep);
      while pos <= |s| && !done
        invariant fresh(tbl) && fresh(tbl.buckets) && fresh(tbl.slots) && Holds(pool, tbl, ps) && idx == |ps|
        invariant SplitSoFar(whole, s, sep, pos, done, ps)
        decreases |s| - pos, !done
      {
        ghost var cut;
        pos, done, cut := CutPiece(pool, tbl, whole, s, sep, pos, ps, idx);
        ps := ps + [cut];
        idx := idx + 1;
      }
      r := Some(tbl);
    }
  }

  /** One turn of the loop above: the next piece is found and stored. */
  method CutPiece(pool: Pool, tbl: BblTable, ghost whole: seq<string>, s: string, sep: string, pos: nat, ghost ps: seq<string>, idx: nat)
    returns (pos': nat, done: bool, ghost cut: string)
    requires |sep| > 0 && pos <= |s| && SplitSoFar(whole, s, sep, pos, false, ps)
    requires Holds(pool, tbl, ps) && idx == |ps|
    modifies tbl, tbl.buckets, tbl.slots
    ensures Holds(pool, tbl, ps + [cut]) && SplitSoFar(whole, s, sep, pos', done, ps + [cut])
    ensures (tbl.buckets == old(tbl.buckets) || fresh(tbl.buckets)) && (tbl.slots == old(tbl.slots) || fresh(tbl.slots))
    ensures if done then pos' == pos else pos < pos'
  {
    var found := Find(s, sep, pos);
    var next := if found.Some? then found.value else |s|;
    PieceCut(whole, s, sep, pos, next, ps);
    cut := s[pos..next];
    StorePiece(pool, tbl, ps, idx, s[pos..next]);
    pos', done := next + |sep|, next == |s|;
    if done { pos' := pos; }
  }

  /** The pieces stored so far, and those still to be cut. */
  predicate SplitSoFar(whole: seq<string>, s: string, sep: string, pos: nat, done: bool, ps: seq<string>)
    requires |sep| > 0
  {
    if done then whole == ps else pos <= |s| && whole == ps + Split(s[pos..], sep)
  }

  lemma SplitStart(s: string, sep: string)
    requires |sep| > 0
    ensures SplitSoFar(Split(s, sep), s, sep, 0, false, [])
  {
    assert s[0..] == s;
  }

  /** The next piece of what is left ends at the separator found from `pos`. */
  lemma NextPiece(s: string, sep: string, pos: nat)
    requires |sep| > 0 && pos <= |s|
    ensures match Find(s, sep, pos)
            case None => Split(s[pos..], sep) == [s[pos..]]
            case Some(i) => Split(s[pos..], sep) == [s[pos..i]] + Split(s[i + |sep|..], sep)
  {
    FindInRest(s, sep, pos);
    SplitUnfolds(s[pos..], sep);
    var found := Find(s, sep, pos);
    if found.Some? {
      RestCut(s, pos, found.value, |sep|);
    }
  }

  lemma Regroup(ps: seq<string>, p: string, others: seq<string>)
    ensures ps + ([p] + others) == ps + [p] + others
  {
  }

  lemma PieceCut(whole: seq<string>, s: string, sep: string, pos: nat, next: nat, ps: seq<string>)
    requires |sep| > 0 && pos <= |s| && SplitSoFar(whole, s, sep, pos, false, ps)
    requires next == match Find(s, sep, pos) case Some(i) => i case None => |s|
    ensures pos <= next <= |s|
    ensures if next == |s| then SplitSoFar(whole, s, sep, pos, true, ps + [s[pos..next]])
            else SplitSoFar(whole, s, sep, next + |sep|, false, ps + [s[pos..next]])
  {
    NextPiece(s, sep, pos);
    if next == |s| {
      assert s[pos..next] == s[pos..];
    } else {
      Regroup(ps, s[pos..next], Split(s[next + |sep|..], sep));
    }
  }

  lemma RestCut(s: string, pos: nat, next: nat, length: nat)
    requires pos <= next && next + length <= |s|
    ensures s[pos..][..next - pos] == s[pos..next]
    ensures s[pos..][next - pos + length..] == s[next + length..]
  {
  }

  /** What `join` finds under index `i` of a table whose array has `size` slots:
      null for a missing key, and for one the array shadows. */
  function Element(pool: Pool, contents: map<Key, Word>, size: nat, i: nat): string {
    if IntKey(i) in contents && !(MAX_ARRAY <= i < size) then pool.text(contents[IntKey(i)]) else pool.text(TAG_NULL)
  }

  function Elements(pool: Pool, contents: map<Key, Word>, size: nat, n: nat): seq<string> {
    if n == 0 then [] else Elements(pool, contents, size, n - 1) + [Element(pool, contents, size, n - 1)]
  }

  method ReadPiece(pool: Pool, tbl: BblTable, i: nat) returns (text: string)
    requires tbl.Valid()
    ensures text == Element(pool, tbl.Contents(), tbl.slots.Length, i)
  {
    var elem := tbl.Get(IntKey(i));
    text := pool.text(match elem case Some(v) => v case None => TAG_NULL);
  }

  /** The texts under 0, 1, ... up to the table's next integer key. */
  method JoinTable(pool: Pool, sep: string, tbl: BblTable) returns (result: string)
    requires tbl.Valid()
    ensures result == Join(Elements(pool, tbl.Contents(), tbl.slots.Length, tbl.nextIntKey), sep)
  {
    result := "";
    ghost var contents, size := tbl.Contents(), tbl.slots.Length;
    ghost var es: seq<string> := [];
    var i := 0;
    while i < tbl.nextIntKey
      invariant 0 <= i <= tbl.nextIntKey
      invariant es == Elements(pool, contents, size, i) && |es| == i
      invariant result == Join(es, sep)
    {
      if i > 0 {
        result := result + sep;
      }
      var text := ReadPiece(pool, tbl, i);
      result := result + text;
      JoinMore(es, text, sep);
      es := es + [text];
      i := i + 1;
    }
  }

  /** The pieces as the table gives them back: from index 1,000,000 on, those the
      array shadows read as null. */
  function GivenBack(pool: Pool, ps: seq<string>): (r: seq<string>)
    ensures |r| == |ps|
  {
    seq(|ps|, i requires 0 <= i < |ps| => if MAX_ARRAY <= i < LengthFor(|ps|) then pool.text(TAG_NULL) else ps[i])
  }

  lemma {:induction false} ElementsAreGivenBack(pool: Pool, ps: seq<string>, n: nat)
    requires Keeps(pool, ps) && n <= |ps|
    ensures Elements(pool, PieceMap(pool, ps), LengthFor(|ps|), n) == GivenBack(pool, ps)[..n]
  {
    if n > 0 {
      ElementsAreGivenBack(pool, ps, n - 1);
      var r := GivenBack(pool, ps);
      assert r[..n] == r[..n - 1] + [r[n - 1]];
      assert IntKey(n - 1) in PieceMap(pool, ps);
    }
  }

  /** Which pieces that concerns. */
  lemma ShadowedPieces(pool: Pool, ps: seq<string>, i: nat)
    requires i < |ps|
    ensures GivenBack(pool, ps)[i] == if 1_000_000 <= i < 2_097_152 then pool.text(TAG_NULL) else ps[i]
  {
    LengthForIs(|ps|);
  }

  /** What joining the split through a table gives; for at most 1,000,000 pieces it
      is the string. */
  method SplitThenJoin(pool: Pool, s: string, sep: string) returns (result: string)
    requires |sep| > 0 && Keeps(pool, Split(s, sep))
    ensures result == Join(GivenBack(pool, Split(s, sep)), sep)
    ensures |Split(s, sep)| <= 1_000_000 ==> result == s
  {
    var tbl := SplitString(pool, s, sep);
    result := JoinTable(pool, sep, tbl.value);
    AllGivenBack(pool, s, sep);
  }

  lemma AllGivenBack(pool: Pool, s: string, sep: string)
    requires |sep| > 0 && Keeps(pool, Split(s, sep))
    ensures var ps := Split(s, sep);
      && Elements(pool, PieceMap(pool, ps), LengthFor(|ps|), |ps|) == GivenBack(pool, ps)
      && (|ps| <= MAX_ARRAY ==> Join(GivenBack(pool, ps), sep) == s)
  {
    var ps := Split(s, sep);
    ElementsAreGivenBack(pool, ps, |ps|);
    assert GivenBack(pool, ps)[..|ps|] == GivenBack(pool, ps);
    if |ps| <= MAX_ARRAY {
      assert GivenBack(pool, ps) == ps;
      JoinSplit(s, sep);
    }
  }

  // ---- replacing in place ----

  /** Everything before `pos` is final, and what is left will be cut and joined
      to make `whole`. */
  predicate ReplacedSoFar(whole: string, from: string, to: string, result: string, pos: nat)
    requires |from| > 0
  {
    pos <= |result| && whole == result[..pos] + Join(Split(result[pos..], from), to)
  }

  lemma ReplaceRound(whole: string, from: string, to: string, result: string, pos: nat, i: nat)
    requires |from| > 0 && ReplacedSoFar(whole, from, to, result, pos) && Find(result, from, pos) == Some(i)
    ensures ReplacedSoFar(whole, from, to, result[..i] + to + result[i + |from|..], i + |to|)
  {
    NextPiece(result, from, pos);
    var ps := Split(result[i + |from|..], from);
    JoinFirst(result[pos..i], ps, to);
    ReplacedText(result, pos, i, |from|, to, Join(ps, to));
  }

  lemma ReplacedText(result: string, pos: nat, i: nat, length: nat, to: string, tail: string)
    requires pos <= i && i + length <= |result|
    ensures var result2 := result[..i] + to + result[i + length..];
      && result2[i + |to|..] == result[i + length..]
      && result2[..i + |to|] + tail == result[..pos] + (result[pos..i] + to + tail)
  {
    var result2 := result[..i] + to + result[i + length..];
    assert result2[..i + |to|] == result[..i] + to;
    assert result[..i] == result[..pos] + result[pos..i];
  }

  lemma ReplaceEnd(whole: string, from: string, to: string, result: string, pos: nat)
    requires |from| > 0 && ReplacedSoFar(whole, from, to, result, pos) && Find(result, from, pos) == None
    ensures result == whole
  {
    NextPiece(result, from, pos);
    assert result == result[..pos] + result[pos..];
  }

  lemma ReplaceStart(s: string, from: string, to: string)
    requires |from| > 0
    ensures ReplacedSoFar(Join(Split(s, from), to), from, to, s, 0)
  {
    assert s[0..] == s;
  }

  /** The string with every leftmost occurrence replaced is its pieces joined with
      the replacement; an empty search string is refused. The text put in is not
      searched again. */
  method ReplaceInString(s: string, from: string, to: string) returns (r: Option<string>)
    ensures r == if |from| == 0 then None else Some(Join(Split(s, from), to))
  {
    if |from| == 0 {
      r := None;
    } else {
      ghost var whole := Join(Split(s, from), to);
      var result, pos: nat := s, 0;
      ReplaceStart(s, from, to);
      var found := Find(result, from, pos);
      while found.Some?
        invariant ReplacedSoFar(whole, from, to, result, pos) && found == Find(result, from, pos)
        decreases |result| - pos
      {
        var i := found.value;
        ReplaceRound(whole, from, to, result, pos, i);
        result := result[..i] + to + result[i + |from|..];
        pos := i + |to|;
        found := Find(result, from, pos);
      }
      ReplaceEnd(whole, from, to, result, pos);
      r := Some(result);
    }
  }
}
