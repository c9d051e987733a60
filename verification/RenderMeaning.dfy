/**
 Writing keeps meaning: the elements a part is written as stand for the same words as the part, counted
 repetitions, tails and alternatives made optional among them.
 */
module RenderMeaning {
  import opened Wrappers
  import opened Text
  import G = Grammar
  import opened Words
  import opened RenderSyntax
  import R = Render

  // ---- the words of a part

  ghost predicate Means(env: Leaves, p: R.Part, w: Word)
    decreases p, 0, 0
  {
    match p
    case Tok(l) => (LeafImage(l), w) in env
    case Star(i) => exists n: nat :: Copies(env, i, n, w)
    case Plus(i) => exists n: nat :: n >= 1 && Copies(env, i, n, w)
    case Opt(i) => w == [] || Means(env, i, w)
    case Rep(i, min, max) => exists n: nat :: Counted(n, min, max) && Copies(env, i, n, w)
    case Group(alts) => MeansSome(env, alts, w)
    case Tail(q) => w == [] || MeansAlt(env, q.els, w)
    case Grp(q) => MeansAlt(env, q.els, w)
  }

  /** Whether so many copies are within a repetition's counts. */
  predicate Counted(n: nat, min: nat, max: Option<nat>) {
    min <= n && (max.Some? ==> n <= max.value)
  }

  ghost predicate MeansAlt(env: Leaves, els: seq<R.Part>, w: Word)
    decreases els, 0, 0
  {
    if els == [] then w == []
    else exists k: nat :: k <= |w| && Means(env, els[0], w[..k]) && MeansAlt(env, els[1..], w[k..])
  }

  ghost predicate MeansSome(env: Leaves, alts: seq<R.Alt>, w: Word)
    decreases alts, 0, 0
  {
    alts != [] && (MeansAlt(env, alts[0].els, w) || MeansSome(env, alts[1..], w))
  }

  ghost predicate Copies(env: Leaves, p: R.Part, n: nat, w: Word)
    decreases p, 1, n
  {
    if n == 0 then w == []
    else exists k: nat :: k <= |w| && Means(env, p, w[..k]) && Copies(env, p, n - 1, w[k..])
  }

  // ---- counted repetitions

  lemma {:induction false} CopiesYield(env: Leaves, e: G.Element, n: nat, w: Word)
    ensures YieldsSeq(env, CopyImages(e, n), w) <==> Power(env, e, n, w)
    decreases n
  {
    if n > 0 {
      if YieldsSeq(env, CopyImages(e, n), w) {
        var k := SeqFirst(env, e, CopyImages(e, n - 1), w);
        CopiesYield(env, e, n - 1, w[k..]);
      }
      if Power(env, e, n, w) {
        var k: nat :| k <= |w| && Yields(env, e, w[..k]) && Power(env, e, n - 1, w[k..]);
        CopiesYield(env, e, n - 1, w[k..]);
        SeqCons(env, e, CopyImages(e, n - 1), w, k);
      }
    }
  }

  lemma GroupOne(env: Leaves, es: seq<G.Element>, w: Word)
    ensures Yields(env, G.Group([G.Sequence(es)], None), w) <==> YieldsSeq(env, es, w)
  {
    assert [G.Sequence(es)][1..] == [];
    assert !YieldsAlts(env, [], w);
  }

  /** One option more over a group of the item and the options inside. */
  lemma OptionsStep(env: Leaves, e: G.Element, n: nat, w: Word)
    requires n > 1
    ensures Yields(env, OptionImage(e, n), w) <==> w == [] || YieldsSeq(env, [e] + [OptionImage(e, n - 1)], w)
  {
    var es := [e, OptionImage(e, n - 1)];
    GroupOne(env, es, w);
    OptOne(env, G.Group([G.Sequence(es)], None), w);
    assert [e] + [OptionImage(e, n - 1)] == es;
  }

  /** n nested options are any number of copies up to n. */
  lemma {:induction false} OptionsTake(env: Leaves, e: G.Element, n: nat, m: nat, w: Word)
    requires 0 < n && m <= n && Power(env, e, m, w)
    ensures Yields(env, OptionImage(e, n), w)
    decreases n
  {
    hide Power, YieldsSeq, Yields, OptionImage;
    if m == 0 {
      PowerNone(env, e, w);
      OptionsEmpty(env, e, n);
    } else {
      var k := PowerSplits(env, e, 1, m - 1, w);
      PowerOne(env, e, w[..k]);
      if n == 1 {
        PowerOne(env, e, w);
        OptionOnce(env, e, w);
      } else {
        OptionsTake(env, e, n - 1, m - 1, w[k..]);
        SeqOne(env, OptionImage(e, n - 1), w[k..]);
        SeqCons(env, e, [OptionImage(e, n - 1)], w, k);
        OptionsStep(env, e, n, w);
      }
    }
  }

  lemma OptionsEmpty(env: Leaves, e: G.Element, n: nat)
    ensures Yields(env, OptionImage(e, n), [])
  {
  }

  lemma OptionOnce(env: Leaves, e: G.Element, w: Word)
    ensures Yields(env, OptionImage(e, 1), w) <==> w == [] || Yields(env, e, w)
  {
  }

  lemma {:induction false} OptionsGive(env: Leaves, e: G.Element, n: nat, w: Word) returns (m: nat)
    requires n > 0 && Yields(env, OptionImage(e, n), w)
    ensures m <= n && Power(env, e, m, w)
    decreases n
  {
    hide Power, YieldsSeq, Yields, OptionImage;
    PowerNone(env, e, w);
    if w == [] {
      m := 0;
    } else if n == 1 {
      OptionOnce(env, e, w);
      PowerOne(env, e, w);
      m := 1;
    } else {
      OptionsStep(env, e, n, w);
      var k := SeqFirst(env, e, [OptionImage(e, n - 1)], w);
      SeqOne(env, OptionImage(e, n - 1), w[k..]);
      var l := OptionsGive(env, e, n - 1, w[k..]);
      PowerOne(env, e, w[..k]);
      PowerJoins(env, e, 1, l, w, k);
      m := 1 + l;
    }
  }

  lemma OptionsYield(env: Leaves, e: G.Element, n: nat, w: Word)
    requires n > 0
    ensures Yields(env, OptionImage(e, n), w) <==> exists m: nat :: m <= n && Power(env, e, m, w)
  {
    if Yields(env, OptionImage(e, n), w) {
      var m := OptionsGive(env, e, n, w);
    }
    if exists m: nat :: m <= n && Power(env, e, m, w) {
      var m: nat :| m <= n && Power(env, e, m, w);
      OptionsTake(env, e, n, m, w);
    }
  }

  lemma OptOne(env: Leaves, e: G.Element, w: Word)
    ensures Yields(env, G.Opt(e), w) <==> w == [] || Yields(env, e, w)
  {
  }

  lemma PowerNone(env: Leaves, e: G.Element, w: Word)
    ensures Power(env, e, 0, w) <==> w == []
  {
  }

  /** What a repetition's counts past the least are written as: the loop, the options, or nothing. */
  function RestImages(e: G.Element, min: nat, max: Option<nat>): seq<G.Element> {
    var opts := R.Options(min, max);
    if max.None? then [G.Star(e)] else if opts > 0 then [OptionImage(e, opts)] else []
  }

  /** Whether so many copies past the least count are within the greatest. */
  predicate Extra(m: nat, min: nat, max: Option<nat>) {
    max.Some? ==> m <= R.Options(min, max)
  }

  lemma RestYields(env: Leaves, e: G.Element, min: nat, max: Option<nat>, w: Word)
    ensures YieldsSeq(env, RestImages(e, min, max), w) <==> exists m: nat :: Extra(m, min, max) && Power(env, e, m, w)
  {
    hide Power, YieldsSeq, OptionImage;
    var opts := R.Options(min, max);
    if max.None? {
      SeqOne(env, G.Star(e), w);
      if Yields(env, G.Star(e), w) {
        var m: nat :| Power(env, e, m, w);
        assert Extra(m, min, max);
      }
    } else if opts > 0 {
      SeqOne(env, OptionImage(e, opts), w);
      OptionsYield(env, e, opts, w);
    } else {
      SeqNone(env, w);
      PowerNone(env, e, w);
      assert Extra(0, min, max);
    }
  }

  lemma RepInTwo(e: G.Element, min: nat, max: Option<nat>)
    ensures RepImages(e, min, max) == CopyImages(e, min) + RestImages(e, min, max)
  {
  }

  /** A repetition's copies and options stand for exactly the words of its counts. */
  lemma RepYields(env: Leaves, e: G.Element, min: nat, max: Option<nat>, w: Word)
    requires max.Some? ==> min <= max.value
    ensures YieldsSeq(env, RepImages(e, min, max), w) <==>
            exists n: nat :: Counted(n, min, max) && Power(env, e, n, w)
  {
    hide Power, YieldsSeq, CopyImages, OptionImage, RestImages;
    var rest := RestImages(e, min, max);
    RepInTwo(e, min, max);
    if YieldsSeq(env, CopyImages(e, min) + rest, w) {
      var k := SeqSplits(env, CopyImages(e, min), rest, w);
      CopiesYield(env, e, min, w[..k]);
      RestYields(env, e, min, max, w[k..]);
      var m: nat :| Extra(m, min, max) && Power(env, e, m, w[k..]);
      PowerJoins(env, e, min, m, w, k);
      assert Counted(min + m, min, max);
    }
    if exists n: nat :: Counted(n, min, max) && Power(env, e, n, w) {
      var n: nat :| Counted(n, min, max) && Power(env, e, n, w);
      var k := PowerSplits(env, e, min, n - min, w);
      CopiesYield(env, e, min, w[..k]);
      assert Extra(n - min, min, max);
      RestYields(env, e, min, max, w[k..]);
      SeqJoins(env, CopyImages(e, min), rest, w, k);
    }
  }

  // ---- parts

  /** Counts in order, as the compiler keeps them. */
  predicate InOrder(p: R.Part) {
    match p
    case Tok(_) => true
    case Star(i) => InOrder(i)
    case Plus(i) => InOrder(i)
    case Opt(i) => InOrder(i)
    case Rep(i, min, max) => (max.Some? ==> min <= max.value) && InOrder(i)
    case Group(alts) => InOrderAlts(alts)
    case Tail(q) => InOrderAlt(q.els)
    case Grp(q) => InOrderAlt(q.els)
  }

  predicate InOrderAlt(els: seq<R.Part>) {
    els != [] ==> InOrder(els[0]) && InOrderAlt(els[1..])
  }

  predicate InOrderAlts(alts: seq<R.Alt>) {
    alts != [] ==> InOrderAlt(alts[0].els) && InOrderAlts(alts[1..])
  }

  lemma {:induction false} CopiesKept(env: Leaves, p: R.Part, n: nat, w: Word)
    requires InOrder(p)
    ensures Copies(env, p, n, w) <==> Power(env, Image(p), n, w)
    decreases p, 2, n
  {
    hide Means, Yields;
    if n > 0 {
      if Copies(env, p, n, w) {
        var k: nat :| k <= |w| && Means(env, p, w[..k]) && Copies(env, p, n - 1, w[k..]);
        MeaningKept(env, p, w[..k]);
        CopiesKept(env, p, n - 1, w[k..]);
      }
      if Power(env, Image(p), n, w) {
        var k: nat :| k <= |w| && Yields(env, Image(p), w[..k]) && Power(env, Image(p), n - 1, w[k..]);
        MeaningKept(env, p, w[..k]);
        CopiesKept(env, p, n - 1, w[k..]);
      }
    }
  }

  lemma LeafYields(env: Leaves, l: R.Leaf, w: Word)
    ensures Yields(env, LeafImage(l), w) <==> (LeafImage(l), w) in env
  {
  }

  /** A part means what the one element it is written as means. */
  lemma {:induction false} MeaningKept(env: Leaves, p: R.Part, w: Word)
    requires InOrder(p)
    ensures Means(env, p, w) <==> Yields(env, Image(p), w)
    decreases p, 1, 0
  {
    hide Power, YieldsSeq, RepImages, LeafImage, YieldsAlts, AltImage;
    match p
    case Tok(l) => LeafYields(env, l, w);
    case Star(i) => forall n: nat { CopiesKept(env, i, n, w); }
    case Plus(i) => forall n: nat { CopiesKept(env, i, n, w); }
    case Opt(i) => MeaningKept(env, i, w);
    case Rep(i, min, max) =>
      GroupOne(env, RepImages(Image(i), min, max), w);
      RepYields(env, Image(i), min, max, w);
      forall n: nat { CopiesKept(env, i, n, w); }
    case Group(alts) => SomeKept(env, alts, w);
    case Tail(q) =>
      GroupOne(env, AltImage(q.els), w);
      AltKept(env, q.els, w);
    case Grp(q) =>
      GroupOne(env, AltImage(q.els), w);
      AltKept(env, q.els, w);
  }

  /** A part means what the elements it is written as mean, one after another. */
  lemma {:induction false} ImagesKept(env: Leaves, p: R.Part, w: Word)
    requires InOrder(p)
    ensures Means(env, p, w) <==> YieldsSeq(env, Images(p), w)
    decreases p, 3, 0
  {
    hide YieldsSeq, Power, Means, Yields;
    MeaningKept(env, p, w);
    if p.Rep? {
      GroupOne(env, RepImages(Image(p.item), p.min, p.max), w);
    } else {
      SeqOne(env, Image(p), w);
    }
  }

  lemma {:induction false} AltKept(env: Leaves, els: seq<R.Part>, w: Word)
    requires InOrderAlt(els)
    ensures MeansAlt(env, els, w) <==> YieldsSeq(env, AltImage(els), w)
    decreases els, 1, 0
  {
    hide YieldsSeq, Means, Images;
    if els == [] {
      SeqNone(env, w);
    } else {
      var more := AltImage(els[1..]);
      if MeansAlt(env, els, w) {
        var k: nat :| k <= |w| && Means(env, els[0], w[..k]) && MeansAlt(env, els[1..], w[k..]);
        ImagesKept(env, els[0], w[..k]);
        AltKept(env, els[1..], w[k..]);
        SeqJoins(env, Images(els[0]), more, w, k);
      }
      if YieldsSeq(env, Images(els[0]) + more, w) {
        var k := SeqSplits(env, Images(els[0]), more, w);
        ImagesKept(env, els[0], w[..k]);
        AltKept(env, els[1..], w[k..]);
      }
    }
  }

  /** The alternatives that hold an element, and the empty word where one holds none. */
  lemma {:induction false} FilledKept(env: Leaves, alts: seq<R.Alt>, w: Word)
    requires InOrderAlts(alts)
    ensures MeansSome(env, alts, w) <==> YieldsAlts(env, FilledImages(alts), w) || (!R.AllFilled(alts) && w == [])
    decreases alts, 1, 0
  {
    hide YieldsSeq, AltImage, Means;
    if alts != [] {
      var q, more := alts[0].els, FilledImages(alts[1..]);
      FilledKept(env, alts[1..], w);
      AltKept(env, q, w);
      if q == [] {
        Ends(more);
        EmptyMeans(env, w);
      } else {
        assert ([G.Sequence(AltImage(q))] + more)[1..] == more;
      }
    }
  }

  lemma EmptyMeans(env: Leaves, w: Word)
    ensures MeansAlt(env, [], w) <==> w == []
  {
  }

  lemma {:induction false} SomeKept(env: Leaves, alts: seq<R.Alt>, w: Word)
    requires InOrderAlts(alts)
    ensures MeansSome(env, alts, w) <==> YieldsAlts(env, AltsImage(alts), w)
    decreases alts, 2, 0
  {
    hide YieldsSeq, FilledImages, R.AllFilled, MeansSome;
    FilledKept(env, alts, w);
    if !R.AllFilled(alts) {
      var e := G.Opt(G.Group(FilledImages(alts), None));
      OptionalYields(env, FilledImages(alts), w);
      SeqOne(env, e, w);
      GroupOne(env, [e], w);
    }
  }

  lemma OptionalYields(env: Leaves, alts: seq<G.Sequence>, w: Word)
    ensures Yields(env, G.Opt(G.Group(alts, None)), w) <==> w == [] || YieldsAlts(env, alts, w)
  {
  }

  // ---- the numbers of a repetition's helpers

  /** The number of the outermost of `depth` options, numbered from the innermost group's n on. */
  function OptionNumber(n: nat, depth: nat): nat
    requires depth > 0
  {
    if depth == 1 then n + 1 else OptionNumber(n, depth - 1) + 2
  }

  /** How many even numbers are below a bound. */
  function Evens(bound: nat): nat {
    if bound == 0 then 0 else Evens(bound - 1) + if (bound - 1) % 2 == 0 then 1 else 0
  }

  /** How many numbers from `from` on are below a bound. */
  function CountFrom(from: nat, bound: nat): nat {
    if bound == 0 then 0 else CountFrom(from, bound - 1) + if bound - 1 >= from then 1 else 0
  }

  /** How deep the options go, by the number of the repetition and of its outermost option. */
  function ChainDepth(rep: nat, opt: nat): nat {
    Evens(CountFrom(rep, opt + 1))
  }

  lemma {:induction false} EvensOf(bound: nat)
    ensures Evens(bound) == (bound + 1) / 2
  {
    if bound > 0 { EvensOf(bound - 1); }
  }

  lemma {:induction false} CountsFrom(from: nat, bound: nat)
    ensures CountFrom(from, bound) == if bound > from then bound - from else 0
  {
    if bound > 0 { CountsFrom(from, bound - 1); }
  }

  lemma {:induction false} NumberOf(n: nat, depth: nat)
    requires depth > 0
    ensures OptionNumber(n, depth) == n + 2 * depth - 1
  {
    if depth > 1 { NumberOf(n, depth - 1); }
  }

  /** The numbering says how deep the options go. */
  lemma ChainDepthIsRight(n: nat, depth: nat)
    requires depth > 0
    ensures ChainDepth(n, OptionNumber(n, depth)) == depth
  {
    NumberOf(n, depth);
    CountsFrom(n, OptionNumber(n, depth) + 1);
    EvensOf(2 * depth);
  }
}
