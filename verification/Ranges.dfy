/**
 The ranges of code points a class holds, as the render keeps them: code points as three bytes, ranges
 sorted and merged, two lists compared, and a list and its complement put together. Each decision is
 proved to be the one about sets of code points that it stands for.
 */
module Ranges {
  import opened Text
  import opened CharClass
  import opened ClassWriter
  import opened RankSort

  // ---- code points

  /** A number of up to 24 bits in base 256. */
  datatype Cp = Cp(high: nat, mid: nat, low: nat)

  datatype Order = Less | Equal | Greater

  predicate ValidCp(c: Cp) {
    c.mid < 256 && c.low < 256
  }

  function Value(c: Cp): nat {
    0x1_0000 * c.high + 0x100 * c.mid + c.low
  }

  function Compare(a: int, b: int): Order {
    if a < b then Less else if a == b then Equal else Greater
  }

  function CpOrder(a: Cp, b: Cp): Order {
    match Compare(a.high, b.high)
    case Equal =>
      (match Compare(a.mid, b.mid)
       case Equal => Compare(a.low, b.low)
       case other => other)
    case other => other
  }

  function CpNext(c: Cp): Cp {
    if c.low == 255 then
      if c.mid == 255 then Cp(c.high + 1, 0, 0) else Cp(c.high, c.mid + 1, 0)
    else Cp(c.high, c.mid, c.low + 1)
  }

  /** Code points are ordered as their bytes are, and follow one another so. */
  lemma CpIsNumeric(a: Cp, b: Cp)
    requires ValidCp(a) && ValidCp(b)
    ensures CpOrder(a, b) == Compare(Value(a), Value(b))
    ensures Value(a) == Value(b) ==> a == b
    ensures ValidCp(CpNext(a)) && Value(CpNext(a)) == Value(a) + 1
  {
  }

  function Pair(x: string): nat
    requires |x| == 2 && All(HexDigits, x)
  {
    16 * HexDigit(x[0]) + HexDigit(x[1])
  }

  function Six(h: string): (x: string)
    requires |h| <= 6
    ensures |x| == 6
    decreases 6 - |h|
  {
    if |h| < 6 then Six("0" + h) else h
  }

  lemma {:induction false} SixValue(h: string)
    requires |h| <= 6 && All(HexDigits, h)
    ensures All(HexDigits, Six(h)) && HexValue(Six(h)) == HexValue(h)
    decreases 6 - |h|
  {
    if |h| < 6 {
      LeadingZero("0" + h);
      SixValue("0" + h);
    }
  }

  function CpOf(h: string): Cp
    requires |h| <= 6 && All(HexDigits, h)
  {
    SixValue(Upper(h));
    var x := Six(Upper(h));
    Cp(Pair(x[..2]), Pair(x[2..4]), Pair(x[4..]))
  }

  lemma SixDigits(x: string)
    requires |x| == 6 && All(HexDigits, x)
    ensures HexValue(x) == 0x1_0000 * Pair(x[..2]) + 0x100 * Pair(x[2..4]) + Pair(x[4..])
  {
    assert x[..5][..4] == x[..4] && x[..4][..3] == x[..3] && x[..3][..2] == x[..2];
    assert x[..2][..1] == x[..1] && x[..1][..0] == "";
    assert HexValue(x) == 16 * HexValue(x[..5]) + HexDigit(x[5]);
    assert HexValue(x[..5]) == 16 * HexValue(x[..4]) + HexDigit(x[4]);
    assert HexValue(x[..4]) == 16 * HexValue(x[..3]) + HexDigit(x[3]);
    assert HexValue(x[..3]) == 16 * HexValue(x[..2]) + HexDigit(x[2]);
    assert HexValue(x[..2]) == 16 * HexValue(x[..1]) + HexDigit(x[1]);
    assert HexValue(x[..1]) == HexDigit(x[0]);
  }

  lemma PairBound(x: string)
    requires |x| == 2 && All(HexDigits, x)
    ensures Pair(x) < 256
  {
  }

  /** A code point's bytes are its digits' value. */
  lemma CpOfValue(h: string)
    requires |h| <= 6 && All(HexDigits, h)
    ensures ValidCp(CpOf(h)) && Value(CpOf(h)) == HexValue(h)
  {
    hide HexValue, Pair, Six, Upper;
    SixValue(Upper(h));
    UpperValue(h);
    var x := Six(Upper(h));
    SixDigits(x);
    PairBound(x[2..4]);
    PairBound(x[4..]);
  }

  // ---- ranges

  datatype Span = Span(lo: Cp, hi: Cp)

  predicate ValidSpan(s: Span) {
    ValidCp(s.lo) && ValidCp(s.hi) && Value(s.lo) <= Value(s.hi)
  }

  predicate ValidSpans(spans: seq<Span>) {
    forall i | 0 <= i < |spans| :: ValidSpan(spans[i])
  }

  predicate In(s: Span, cp: nat) {
    Value(s.lo) <= cp <= Value(s.hi)
  }

  /** Whether a code point is in some range of a list. */
  ghost predicate Holds(spans: seq<Span>, cp: nat) {
    exists i :: 0 <= i < |spans| && In(spans[i], cp)
  }

  function LowEnds(spans: seq<Span>): (keys: seq<int>)
    ensures |keys| == |spans|
    ensures forall i | 0 <= i < |spans| :: keys[i] == Value(spans[i].lo)
  {
    seq(|spans|, i requires 0 <= i < |spans| => Value(spans[i].lo))
  }

  /** Ranges in the order of their low ends, ranked by counting. */
  function SpansSorted(spans: seq<Span>): (r: seq<Span>)
    ensures |r| == |spans|
  {
    Sorted(spans, LowEnds(spans))
  }

  /** The counting compares low ends byte by byte, and places where those are the same. */
  lemma PrecedesByBytes(spans: seq<Span>, j: nat, i: nat)
    requires ValidSpans(spans) && i < |spans| && j < |spans|
    ensures Precedes(LowEnds(spans), j, i) <==>
            match CpOrder(spans[j].lo, spans[i].lo)
            case Less => true
            case Equal => j < i
            case Greater => false
  {
    CpIsNumeric(spans[j].lo, spans[i].lo);
  }

  ghost predicate InOrder(spans: seq<Span>) {
    ValidSpans(spans) && forall i, j | 0 <= i < j < |spans| :: Value(spans[i].lo) <= Value(spans[j].lo)
  }

  lemma SortedSpans(spans: seq<Span>)
    requires ValidSpans(spans)
    ensures InOrder(SpansSorted(spans))
    ensures forall cp: nat :: Holds(SpansSorted(spans), cp) <==> Holds(spans, cp)
  {
    hide Nth, In;
    var r, keys := SpansSorted(spans), LowEnds(spans);
    forall i, j | 0 <= i < j < |r| ensures Value(r[i].lo) <= Value(r[j].lo) { NthOrders(keys, i, j); }
    SortedHolds(spans, keys);
    forall cp: nat ensures Holds(r, cp) <==> Holds(spans, cp) {
      if Holds(r, cp) {
        var i :| 0 <= i < |r| && In(r[i], cp);
        assert r[i] in spans;
      }
      if Holds(spans, cp) {
        var i :| 0 <= i < |spans| && In(spans[i], cp);
        assert spans[i] in r;
      }
    }
  }

  // ---- merging

  /** Whether a range neither overlaps nor meets any range before it. */
  predicate Opens(sorted: seq<Span>, i: nat)
    requires i < |sorted|
  {
    forall j | 0 <= j < i :: CpOrder(CpNext(sorted[j].hi), sorted[i].lo) == Less
  }

  /** Where the blocks of ranges that overlap or meet begin, among the first n. */
  function BlockStarts(sorted: seq<Span>, n: nat): (starts: seq<nat>)
    requires n <= |sorted|
    ensures forall k | 0 <= k < |starts| :: starts[k] < n && Opens(sorted, starts[k])
    ensures forall k, l | 0 <= k < l < |starts| :: starts[k] < starts[l]
    ensures n > 0 ==> starts != [] && starts[0] == 0
  {
    if n == 0 then []
    else if Opens(sorted, n - 1) then BlockStarts(sorted, n - 1) + [n - 1]
    else BlockStarts(sorted, n - 1)
  }

  function CpMax(spans: seq<Span>): (c: Cp)
    requires spans != []
    ensures exists i :: 0 <= i < |spans| && spans[i].hi == c
  {
    if |spans| == 1 then spans[0].hi
    else
      var m := CpMax(spans[1..]);
      if CpOrder(spans[0].hi, m) == Less then m else spans[0].hi
  }

  function BlockEnd(starts: seq<nat>, k: nat, n: nat): nat
    requires k < |starts|
  {
    if k + 1 < |starts| then starts[k + 1] else n
  }

  lemma BlockIs(sorted: seq<Span>, k: nat)
    requires k < |BlockStarts(sorted, |sorted|)|
    ensures var starts := BlockStarts(sorted, |sorted|);
            starts[k] < BlockEnd(starts, k, |sorted|) <= |sorted|
  {
  }

  function BlockSpan(sorted: seq<Span>, k: nat): Span
    requires k < |BlockStarts(sorted, |sorted|)|
  {
    var starts := BlockStarts(sorted, |sorted|);
    BlockIs(sorted, k);
    Span(sorted[starts[k]].lo, CpMax(sorted[starts[k]..BlockEnd(starts, k, |sorted|)]))
  }

  function MergedSorted(sorted: seq<Span>): (r: seq<Span>)
    ensures |r| == |BlockStarts(sorted, |sorted|)|
    ensures forall k | 0 <= k < |r| :: r[k] == BlockSpan(sorted, k)
  {
    seq(|BlockStarts(sorted, |sorted|)|, k requires 0 <= k < |BlockStarts(sorted, |sorted|)| => BlockSpan(sorted, k))
  }

  /** One range a block: from the low end that opens it to the highest end inside. */
  function Merged(spans: seq<Span>): seq<Span> {
    MergedSorted(SpansSorted(spans))
  }

  lemma {:induction false} MaxIsLargest(spans: seq<Span>, i: nat)
    requires ValidSpans(spans) && i < |spans|
    ensures ValidCp(CpMax(spans)) && Value(spans[i].hi) <= Value(CpMax(spans))
    decreases |spans|
  {
    if |spans| > 1 {
      assert ValidSpans(spans[1..]);
      MaxIsLargest(spans[1..], if i > 0 then i - 1 else 0);
      CpIsNumeric(spans[0].hi, CpMax(spans[1..]));
    }
  }

  /** A range that opens a block lies past the end of every range before it, and of the one after. */
  lemma OpensIsNumeric(sorted: seq<Span>, i: nat)
    requires ValidSpans(sorted) && i < |sorted|
    ensures Opens(sorted, i) <==> forall j | 0 <= j < i :: Value(sorted[j].hi) + 1 < Value(sorted[i].lo)
  {
    forall j | 0 <= j < i
      ensures CpOrder(CpNext(sorted[j].hi), sorted[i].lo) == Less <==> Value(sorted[j].hi) + 1 < Value(sorted[i].lo)
    {
      CpIsNumeric(sorted[j].hi, sorted[i].lo);
      CpIsNumeric(CpNext(sorted[j].hi), sorted[i].lo);
    }
  }

  /** From where a block opens, ranges that open no block cover everything up to their highest end. */
  lemma {:induction false} BlockCovers(sorted: seq<Span>, from: nat, end: nat, cp: nat) returns (i: nat)
    requires InOrder(sorted) && from < end <= |sorted| && Opens(sorted, from)
    requires forall j | from < j < end :: !Opens(sorted, j)
    requires exists j :: from <= j < end && Value(sorted[from].lo) <= cp <= Value(sorted[j].hi)
    ensures from <= i < end && In(sorted[i], cp)
    decreases end
  {
    var j :| from <= j < end && Value(sorted[from].lo) <= cp <= Value(sorted[j].hi);
    if (exists h :: from <= h < end - 1 && Value(sorted[from].lo) <= cp <= Value(sorted[h].hi)) {
      i := BlockCovers(sorted, from, end - 1, cp);
    } else {
      i := j;
      if j > from {
        OpensIsNumeric(sorted, j);
        OpensIsNumeric(sorted, from);
        var h :| 0 <= h < j && Value(sorted[h].hi) + 1 >= Value(sorted[j].lo);
        assert h >= from;
      }
    }
  }

  lemma {:induction false} BlockOf(sorted: seq<Span>, i: nat) returns (k: nat)
    requires i < |sorted|
    ensures var starts := BlockStarts(sorted, |sorted|);
            k < |starts| && starts[k] <= i < BlockEnd(starts, k, |sorted|)
  {
    var starts := BlockStarts(sorted, |sorted|);
    k := 0;
    while k + 1 < |starts| && starts[k + 1] <= i
      invariant k < |starts| && starts[k] <= i
    {
      k := k + 1;
    }
  }

  lemma {:induction false} StartsAreAll(sorted: seq<Span>, n: nat, j: nat)
    requires j < n <= |sorted| && Opens(sorted, j)
    ensures j in BlockStarts(sorted, n)
  {
    if j < n - 1 { StartsAreAll(sorted, n - 1, j); }
  }

  lemma NoneOpens(sorted: seq<Span>, k: nat, j: nat)
    requires k < |BlockStarts(sorted, |sorted|)|
    requires BlockStarts(sorted, |sorted|)[k] < j < BlockEnd(BlockStarts(sorted, |sorted|), k, |sorted|)
    ensures j < |sorted| && !Opens(sorted, j)
  {
    hide Opens;
    BlockIs(sorted, k);
    if Opens(sorted, j) {
      StartsAreAll(sorted, |sorted|, j);
      var l :| 0 <= l < |BlockStarts(sorted, |sorted|)| && BlockStarts(sorted, |sorted|)[l] == j;
    }
  }

  /** Ranges apart from one another, in order: the canonical form of a set of code points. */
  ghost predicate Canonical(spans: seq<Span>) {
    ValidSpans(spans) && forall i, j | 0 <= i < j < |spans| :: Value(spans[i].hi) + 1 < Value(spans[j].lo)
  }

  lemma MaxOfSlice(sorted: seq<Span>, a: nat, b: nat, i: nat)
    requires ValidSpans(sorted) && a <= i < b <= |sorted|
    ensures ValidCp(CpMax(sorted[a..b])) && Value(sorted[i].hi) <= Value(CpMax(sorted[a..b]))
  {
    hide CpMax;
    var block := sorted[a..b];
    assert ValidSpans(block) by {
      forall j | 0 <= j < |block| ensures ValidSpan(block[j]) { assert block[j] == sorted[a + j]; }
    }
    MaxIsLargest(block, i - a);
    assert block[i - a] == sorted[i];
  }

  lemma BlockHigh(sorted: seq<Span>, k: nat, i: nat)
    requires InOrder(sorted) && k < |BlockStarts(sorted, |sorted|)|
    requires BlockStarts(sorted, |sorted|)[k] <= i < BlockEnd(BlockStarts(sorted, |sorted|), k, |sorted|)
    ensures i < |sorted| && ValidCp(BlockSpan(sorted, k).hi) && Value(sorted[i].hi) <= Value(BlockSpan(sorted, k).hi)
  {
    hide BlockStarts, BlockEnd, CpMax, Opens;
    var starts := BlockStarts(sorted, |sorted|);
    BlockIs(sorted, k);
    MaxOfSlice(sorted, starts[k], BlockEnd(starts, k, |sorted|), i);
  }

  lemma BlockTop(sorted: seq<Span>, k: nat) returns (i: nat)
    requires InOrder(sorted) && k < |BlockStarts(sorted, |sorted|)|
    ensures BlockStarts(sorted, |sorted|)[k] <= i < BlockEnd(BlockStarts(sorted, |sorted|), k, |sorted|)
    ensures i < |sorted| && BlockSpan(sorted, k).hi == sorted[i].hi
  {
    hide BlockStarts, BlockEnd, CpMax, Opens;
    var starts := BlockStarts(sorted, |sorted|);
    BlockIs(sorted, k);
    i := TopOfSlice(sorted, starts[k], BlockEnd(starts, k, |sorted|));
  }

  lemma TopOfSlice(sorted: seq<Span>, a: nat, b: nat) returns (i: nat)
    requires a < b <= |sorted|
    ensures a <= i < b && CpMax(sorted[a..b]) == sorted[i].hi
  {
    var block := sorted[a..b];
    var j :| 0 <= j < |block| && block[j].hi == CpMax(block);
    i := a + j;
  }

  lemma MergedIsCanonical(sorted: seq<Span>)
    requires InOrder(sorted)
    ensures Canonical(MergedSorted(sorted))
  {
    hide BlockSpan, BlockStarts, Opens;
    var r, starts := MergedSorted(sorted), BlockStarts(sorted, |sorted|);
    forall k | 0 <= k < |r| ensures ValidSpan(r[k]) { BlockIsValid(sorted, k); }
    forall k, l | 0 <= k < l < |r| ensures Value(r[k].hi) + 1 < Value(r[l].lo) { BlocksApart(sorted, k, l); }
  }

  lemma BlockIsValid(sorted: seq<Span>, k: nat)
    requires InOrder(sorted) && k < |BlockStarts(sorted, |sorted|)|
    ensures ValidSpan(BlockSpan(sorted, k)) && BlockSpan(sorted, k).lo == sorted[BlockStarts(sorted, |sorted|)[k]].lo
  {
    BlockIs(sorted, k);
    BlockHigh(sorted, k, BlockStarts(sorted, |sorted|)[k]);
    assert ValidSpan(sorted[BlockStarts(sorted, |sorted|)[k]]);
  }

  lemma BlocksApart(sorted: seq<Span>, k: nat, l: nat)
    requires InOrder(sorted) && k < l < |BlockStarts(sorted, |sorted|)|
    ensures Value(BlockSpan(sorted, k).hi) + 1 < Value(BlockSpan(sorted, l).lo)
  {
    hide BlockSpan, Opens;
    var starts := BlockStarts(sorted, |sorted|);
    var i := BlockTop(sorted, k);
    BlockIsValid(sorted, l);
    assert i < starts[l];
    OpensIsNumeric(sorted, starts[l]);
  }

  lemma MergedHolds(sorted: seq<Span>, cp: nat)
    requires InOrder(sorted)
    ensures Holds(MergedSorted(sorted), cp) <==> Holds(sorted, cp)
  {
    hide BlockSpan, BlockStarts, Opens, In;
    var r := MergedSorted(sorted);
    if Holds(r, cp) {
      var k :| 0 <= k < |r| && In(r[k], cp);
      BlockHolds(sorted, k, cp);
    }
    if Holds(sorted, cp) {
      var i :| 0 <= i < |sorted| && In(sorted[i], cp);
      var k := BlockOf(sorted, i);
      InBlock(sorted, k, i, cp);
      assert In(r[k], cp);
    }
  }

  lemma InBlock(sorted: seq<Span>, k: nat, i: nat, cp: nat)
    requires InOrder(sorted) && k < |BlockStarts(sorted, |sorted|)|
    requires BlockStarts(sorted, |sorted|)[k] <= i < BlockEnd(BlockStarts(sorted, |sorted|), k, |sorted|)
    requires i < |sorted| && In(sorted[i], cp)
    ensures In(BlockSpan(sorted, k), cp)
  {
    hide BlockSpan, BlockStarts, Opens;
    BlockHigh(sorted, k, i);
    BlockIsValid(sorted, k);
  }

  lemma BlockHolds(sorted: seq<Span>, k: nat, cp: nat)
    requires InOrder(sorted) && k < |BlockStarts(sorted, |sorted|)| && In(BlockSpan(sorted, k), cp)
    ensures Holds(sorted, cp)
  {
    hide BlockSpan, BlockStarts, Opens, InOrder;
    var starts := BlockStarts(sorted, |sorted|);
    var top := BlockTop(sorted, k);
    BlockIsValid(sorted, k);
    BlockIs(sorted, k);
    forall j | starts[k] < j < BlockEnd(starts, k, |sorted|) ensures !Opens(sorted, j) { NoneOpens(sorted, k, j); }
    var i := BlockCovers(sorted, starts[k], BlockEnd(starts, k, |sorted|), cp);
  }

  /** Merging keeps the set of code points and leaves its canonical form. */
  lemma MergedIs(spans: seq<Span>)
    requires ValidSpans(spans)
    ensures Canonical(Merged(spans))
    ensures forall cp: nat :: Holds(Merged(spans), cp) <==> Holds(spans, cp)
  {
    var sorted := SpansSorted(spans);
    SortedSpans(spans);
    MergedIsCanonical(sorted);
    forall cp: nat ensures Holds(Merged(spans), cp) <==> Holds(spans, cp) { MergedHolds(sorted, cp); }
  }

  // ---- comparing

  predicate SpansSame(a: seq<Span>, b: seq<Span>) {
    |a| == |b| && forall i | 0 <= i < |a| ::
      CpOrder(a[i].lo, b[i].lo) == Equal && CpOrder(a[i].hi, b[i].hi) == Equal
  }

  lemma HeadIsLeast(a: seq<Span>, cp: nat)
    requires Canonical(a) && a != []
    ensures Canonical(a[1..])
    ensures Holds(a, cp) ==> cp >= Value(a[0].lo)
    ensures Holds(a, Value(a[0].lo)) && Holds(a, Value(a[0].hi)) && !Holds(a, Value(a[0].hi) + 1)
    ensures Value(a[0].lo) <= cp <= Value(a[0].hi) ==> Holds(a, cp)
    ensures Holds(a[1..], cp) <==> Holds(a, cp) && cp > Value(a[0].hi)
  {
    assert In(a[0], Value(a[0].lo)) && In(a[0], Value(a[0].hi));
    assert In(a[0], cp) || !(Value(a[0].lo) <= cp <= Value(a[0].hi));
    if Holds(a, cp) && cp > Value(a[0].hi) {
      var i :| 0 <= i < |a| && In(a[i], cp);
      assert In(a[1..][i - 1], cp);
    }
    if Holds(a[1..], cp) {
      var i :| 0 <= i < |a[1..]| && In(a[1..][i], cp);
      assert In(a[i + 1], cp);
    }
  }

  /** A set of code points has one canonical form. */
  lemma {:induction false} CanonicalIsUnique(a: seq<Span>, b: seq<Span>)
    requires Canonical(a) && Canonical(b)
    requires forall cp: nat :: Holds(a, cp) <==> Holds(b, cp)
    ensures a == b
    decreases |a|
  {
    hide Holds, In, Canonical;
    if a == [] || b == [] {
      if a != [] { HeadIsLeast(a, 0); NothingHeld(Value(a[0].lo)); }
      if b != [] { HeadIsLeast(b, 0); NothingHeld(Value(b[0].lo)); }
    } else {
      HeadsAgree(a, b);
      forall cp: nat ensures Holds(a[1..], cp) <==> Holds(b[1..], cp) {
        HeadIsLeast(a, cp);
        HeadIsLeast(b, cp);
      }
      HeadIsLeast(a, 0);
      HeadIsLeast(b, 0);
      CanonicalIsUnique(a[1..], b[1..]);
      assert a == [a[0]] + a[1..] && b == [b[0]] + b[1..];
    }
  }

  lemma NothingHeld(cp: nat)
    ensures !Holds([], cp)
  {
  }

  lemma HeadsAgree(a: seq<Span>, b: seq<Span>)
    requires Canonical(a) && Canonical(b) && a != [] && b != []
    requires forall cp: nat :: Holds(a, cp) <==> Holds(b, cp)
    ensures a[0] == b[0]
  {
    hide Holds, In;
    HeadIsLeast(a, Value(b[0].lo));
    HeadIsLeast(b, Value(a[0].lo));
    HeadIsLeast(a, Value(b[0].hi) + 1);
    HeadIsLeast(b, Value(a[0].hi) + 1);
    CpIsNumeric(a[0].lo, b[0].lo);
    CpIsNumeric(a[0].hi, b[0].hi);
  }

  /** Equality of merged lists decides equality of sets. */
  lemma SameIffSets(a: seq<Span>, b: seq<Span>)
    requires ValidSpans(a) && ValidSpans(b)
    ensures SpansSame(Merged(a), Merged(b)) <==> forall cp: nat :: Holds(a, cp) <==> Holds(b, cp)
  {
    hide Holds, Merged;
    MergedIs(a);
    MergedIs(b);
    var m, n := Merged(a), Merged(b);
    if SpansSame(m, n) {
      forall i | 0 <= i < |m| ensures m[i] == n[i] {
        CpIsNumeric(m[i].lo, n[i].lo);
        CpIsNumeric(m[i].hi, n[i].hi);
      }
      assert m == n;
    }
    if forall cp: nat :: Holds(a, cp) <==> Holds(b, cp) {
      CanonicalIsUnique(m, n);
      forall i | 0 <= i < |m| ensures CpOrder(m[i].lo, n[i].lo) == Equal && CpOrder(m[i].hi, n[i].hi) == Equal {
        CpIsNumeric(m[i].lo, n[i].lo);
        CpIsNumeric(m[i].hi, n[i].hi);
      }
    }
  }

  // ---- a list of ranges and its complement

  const FIRST := Cp(0, 0, 0)
  const LAST := Cp(0x10, 0xFF, 0xFF)

  predicate Follows(spans: seq<Span>, i: nat)
    requires i + 1 < |spans|
  {
    CpOrder(spans[i + 1].lo, CpNext(spans[i].hi)) == Equal
  }

  predicate Chained(all: seq<Span>) {
    && all != []
    && CpOrder(all[0].lo, FIRST) == Equal && CpOrder(all[|all| - 1].hi, LAST) == Equal
    && forall i | 0 <= i < |all| - 1 :: Follows(all, i)
  }

  /** The render's test for a class and its complement: laid end to end they run from 0 to 10FFFF. */
  predicate SpansTile(a: seq<Span>, b: seq<Span>) {
    Chained(SpansSorted(Merged(a) + Merged(b)))
  }

  lemma FollowsIsNumeric(spans: seq<Span>, i: nat)
    requires ValidSpans(spans) && i + 1 < |spans|
    ensures Follows(spans, i) <==> Value(spans[i + 1].lo) == Value(spans[i].hi) + 1
  {
    CpIsNumeric(spans[i].hi, spans[i + 1].lo);
    CpIsNumeric(spans[i + 1].lo, CpNext(spans[i].hi));
  }

  lemma EndsAreNumeric(c: Cp)
    requires ValidCp(c)
    ensures CpOrder(c, FIRST) == Equal <==> Value(c) == 0
    ensures CpOrder(c, LAST) == Equal <==> Value(c) == MAX_CODE_POINT
  {
    hide CpOrder, CpNext, Value;
    EndValues();
    CpIsNumeric(c, FIRST);
    CpIsNumeric(c, LAST);
  }

  lemma EndValues()
    ensures ValidCp(FIRST) && ValidCp(LAST) && Value(FIRST) == 0 && Value(LAST) == MAX_CODE_POINT
  {
  }

  lemma {:induction false} ChainedApart(all: seq<Span>, i: nat, j: nat)
    requires ValidSpans(all) && i < j < |all| && forall k | 0 <= k < |all| - 1 :: Follows(all, k)
    ensures Value(all[i].hi) < Value(all[j].lo)
    decreases j
  {
    FollowsIsNumeric(all, j - 1);
    if i < j - 1 {
      ChainedApart(all, i, j - 1);
      assert ValidSpan(all[j - 1]);
    }
  }

  lemma {:induction false} ChainedCovers(all: seq<Span>, n: nat, cp: nat) returns (i: nat)
    requires ValidSpans(all) && n < |all| && forall k | 0 <= k < |all| - 1 :: Follows(all, k)
    requires Value(all[0].lo) <= cp <= Value(all[n].hi)
    ensures i <= n && In(all[i], cp)
    decreases n
  {
    if Value(all[n].lo) <= cp {
      i := n;
    } else {
      FollowsIsNumeric(all, n - 1);
      i := ChainedCovers(all, n - 1, cp);
    }
  }

  predicate WithinMax(spans: seq<Span>) {
    forall i | 0 <= i < |spans| :: Value(spans[i].hi) <= MAX_CODE_POINT
  }

  /** No two places of a list hold one code point. */
  ghost predicate Apart(spans: seq<Span>) {
    forall i, j, cp: nat | 0 <= i < j < |spans| && In(spans[i], cp) :: !In(spans[j], cp)
  }

  /** Sorted ranges that no code point is in twice, and every one in once, follow one another. */
  lemma TileIsChained(all: seq<Span>)
    requires InOrder(all) && Apart(all) && WithinMax(all)
    requires forall cp: nat | cp <= MAX_CODE_POINT :: Holds(all, cp)
    ensures Chained(all)
  {
    hide Holds, InOrder, Apart, WithinMax, Follows;
    TileEnds(all);
    forall i | 0 <= i < |all| - 1 ensures Follows(all, i) { TileFollows(all, i); }
  }

  lemma TileEnds(all: seq<Span>)
    requires InOrder(all) && Apart(all) && WithinMax(all)
    requires forall cp: nat | cp <= MAX_CODE_POINT :: Holds(all, cp)
    ensures all != []
    ensures CpOrder(all[0].lo, FIRST) == Equal && CpOrder(all[|all| - 1].hi, LAST) == Equal
  {
    hide Holds, Apart, CpOrder;
    var n := |all|;
    var z := HeldAt(all, 0);
    var k := HeldAt(all, MAX_CODE_POINT);
    if k < n - 1 { ApartInOrder(all, k, n - 1); }
    assert ValidSpan(all[0]) && ValidSpan(all[n - 1]);
    EndsAreNumeric(all[0].lo);
    EndsAreNumeric(all[n - 1].hi);
  }

  lemma TileFollows(all: seq<Span>, i: nat)
    requires InOrder(all) && Apart(all) && WithinMax(all) && i + 1 < |all|
    requires forall cp: nat | cp <= MAX_CODE_POINT :: Holds(all, cp)
    ensures Follows(all, i)
  {
    hide Holds, Apart, Follows;
    ApartInOrder(all, i, i + 1);
    FollowsIsNumeric(all, i);
    var cp := Value(all[i].hi) + 1;
    var h := HeldAt(all, cp);
    assert ValidSpan(all[i]) && ValidSpan(all[i + 1]);
    if h < i { ApartInOrder(all, h, i); }
  }

  lemma HeldAt(all: seq<Span>, cp: nat) returns (i: nat)
    requires InOrder(all) && WithinMax(all)
    requires cp <= MAX_CODE_POINT ==> Holds(all, cp)
    ensures cp <= MAX_CODE_POINT ==> i < |all| && In(all[i], cp)
  {
    i := 0;
    if cp <= MAX_CODE_POINT { i :| 0 <= i < |all| && In(all[i], cp); }
  }

  lemma ApartInOrder(all: seq<Span>, i: nat, j: nat)
    requires InOrder(all) && Apart(all) && i < j < |all|
    ensures Value(all[i].hi) < Value(all[j].lo)
  {
    assert ValidSpan(all[i]) && ValidSpan(all[j]);
    assert In(all[j], Value(all[j].lo));
    assert !In(all[i], Value(all[j].lo));
  }

  // ---- places of the two lists among the sorted ones

  /** The place in the sorted list of the i-th of the ranges put together. */
  lemma PlaceSorted(cat: seq<Span>, i: nat) returns (k: nat)
    requires i < |cat|
    ensures k < |cat| && SpansSorted(cat)[k] == cat[i] && Nth(LowEnds(cat), k) == i
  {
    k := Rank(LowEnds(cat), i);
    NthOfRank(LowEnds(cat), i);
  }

  lemma SortedKeepsApart(cat: seq<Span>)
    requires ValidSpans(cat)
    ensures Apart(SpansSorted(cat)) <==> Apart(cat)
  {
    hide In, Nth, LowEnds, SpansSorted;
    var all := SpansSorted(cat);
    if Apart(all) {
      forall i, j, cp: nat | 0 <= i < j < |cat| && In(cat[i], cp) ensures !In(cat[j], cp) {
        var k := PlaceSorted(cat, i);
        var l := PlaceSorted(cat, j);
        assert In(all[k], cp) && (k < l || l < k);
      }
    }
    if Apart(cat) {
      forall k, l, cp: nat | 0 <= k < l < |all| && In(all[k], cp) ensures !In(all[l], cp) {
        SortedAt(cat, k);
        SortedAt(cat, l);
        var i, j := Nth(LowEnds(cat), k), Nth(LowEnds(cat), l);
        NthDiffers(LowEnds(cat), k, l);
      }
    }
  }

  lemma SortedAt(cat: seq<Span>, k: nat)
    requires k < |cat|
    ensures Nth(LowEnds(cat), k) < |cat| && SpansSorted(cat)[k] == cat[Nth(LowEnds(cat), k)]
  {
  }

  lemma NthDiffers(keys: seq<int>, k: nat, l: nat)
    requires k < l < |keys|
    ensures Nth(keys, k) != Nth(keys, l)
  {
  }

  /** Two canonical lists put together are apart exactly when they hold no code point in common. */
  lemma CatApart(m: seq<Span>, n: seq<Span>)
    requires Canonical(m) && Canonical(n)
    ensures ValidSpans(m + n)
    ensures forall cp: nat :: Holds(m + n, cp) <==> Holds(m, cp) || Holds(n, cp)
    ensures Apart(m + n) <==> forall cp: nat :: !(Holds(m, cp) && Holds(n, cp))
  {
    var cat := m + n;
    forall cp: nat ensures Holds(cat, cp) <==> Holds(m, cp) || Holds(n, cp) { CatHolds(m, n, cp); }
    forall cp: nat | Holds(m, cp) && Holds(n, cp) ensures !Apart(cat) { CommonIsTwice(m, n, cp); }
    if !Apart(cat) {
      var i, j, cp: nat :| 0 <= i < j < |cat| && In(cat[i], cp) && In(cat[j], cp);
      TwiceIsCommon(m, n, i, j, cp);
    }
  }

  lemma CommonIsTwice(m: seq<Span>, n: seq<Span>, cp: nat)
    requires Holds(m, cp) && Holds(n, cp)
    ensures !Apart(m + n)
  {
    var i :| 0 <= i < |m| && In(m[i], cp);
    var j :| 0 <= j < |n| && In(n[j], cp);
    assert (m + n)[i] == m[i] && (m + n)[|m| + j] == n[j];
  }

  lemma TwiceIsCommon(m: seq<Span>, n: seq<Span>, i: nat, j: nat, cp: nat)
    requires Canonical(m) && Canonical(n) && i < j < |m + n| && In((m + n)[i], cp) && In((m + n)[j], cp)
    ensures Holds(m, cp) && Holds(n, cp)
  {
    if i < |m| { CanonicalOnce(m, i, if j < |m| then j else |m|, cp); }
    if j >= |m| { CanonicalOnce(n, if i >= |m| then i - |m| else |n|, j - |m|, cp); }
  }

  lemma CanonicalOnce(m: seq<Span>, i: nat, j: nat, cp: nat)
    requires Canonical(m)
    ensures i < j < |m| && In(m[i], cp) ==> !In(m[j], cp)
  {
  }

  lemma CatHolds(m: seq<Span>, n: seq<Span>, cp: nat)
    ensures Holds(m + n, cp) <==> Holds(m, cp) || Holds(n, cp)
  {
    var cat := m + n;
    if Holds(cat, cp) {
      var i :| 0 <= i < |cat| && In(cat[i], cp);
      assert if i < |m| then In(m[i], cp) else In(n[i - |m|], cp);
    }
    if Holds(m, cp) {
      var i :| 0 <= i < |m| && In(m[i], cp);
      assert In(cat[i], cp);
    }
    if Holds(n, cp) {
      var i :| 0 <= i < |n| && In(n[i], cp);
      assert In(cat[|m| + i], cp);
    }
  }

  lemma HeldWithin(spans: seq<Span>)
    requires ValidSpans(spans)
    ensures WithinMax(spans) <==> forall cp: nat | Holds(spans, cp) :: cp <= MAX_CODE_POINT
  {
    if forall cp: nat | Holds(spans, cp) :: cp <= MAX_CODE_POINT {
      forall i | 0 <= i < |spans| ensures Value(spans[i].hi) <= MAX_CODE_POINT {
        assert ValidSpan(spans[i]) && In(spans[i], Value(spans[i].hi));
        assert Holds(spans, Value(spans[i].hi));
      }
    }
  }

  /** Two lists tile when every code point is in one of them and none is in both. */
  lemma TileIffPartition(a: seq<Span>, b: seq<Span>)
    requires ValidSpans(a) && ValidSpans(b) && WithinMax(a) && WithinMax(b)
    ensures SpansTile(a, b) <==> forall cp: nat | cp <= 0x10_FFFF :: Holds(a, cp) != Holds(b, cp)
  {
    hide Holds, SpansSorted, Merged, Chained, Apart, InOrder, WithinMax, Canonical, ValidSpans;
    var m, n := Merged(a), Merged(b);
    MergedIs(a);
    MergedIs(b);
    CatApart(m, n);
    var all := SpansSorted(m + n);
    SortedSpans(m + n);
    SortedKeepsApart(m + n);
    OrderIsValid(all);
    HeldWithin(a);
    HeldWithin(b);
    HeldWithin(all);
    if Chained(all) { ChainedTiles(all); }
    if forall cp: nat | cp <= MAX_CODE_POINT :: Holds(a, cp) != Holds(b, cp) {
      TileIsChained(all);
    }
  }

  lemma OrderIsValid(all: seq<Span>)
    requires InOrder(all)
    ensures ValidSpans(all)
  {
  }

  lemma ChainedTiles(all: seq<Span>)
    requires InOrder(all) && Chained(all)
    ensures Apart(all) && forall cp: nat | cp <= MAX_CODE_POINT :: Holds(all, cp)
  {
    hide CpOrder, CpNext, Follows;
    EndsAreNumeric(all[0].lo);
    EndsAreNumeric(all[|all| - 1].hi);
    forall i, j, cp: nat | 0 <= i < j < |all| && In(all[i], cp) ensures !In(all[j], cp) { ChainedApart(all, i, j); }
    forall cp: nat | cp <= MAX_CODE_POINT ensures Holds(all, cp) {
      var i := ChainedCovers(all, |all| - 1, cp);
    }
  }
}
