/**
 What the render refuses. The level it carries for an element is the element's level in the tree the
 reader builds, so a part with a spelling is refused exactly where that tree would pass the limit.
 */
module RenderDepth {
  import opened Wrappers
  import opened Text
  import G = Grammar
  import opened RenderSyntax
  import R = Render

  /** Whether a refusal is for depth, and rightly. */
  predicate PastLimit(w: R.Written) {
    w.Refused? ==> w.why.TooDeep? && w.why.level > 128
  }

  lemma {:induction false} OptionDepth(e: G.Element, n: nat)
    requires n > 0
    ensures G.Depth(OptionImage(e, n)) == G.Depth(e) + 2 * n - 1
  {
    if n > 1 {
      var inner := OptionImage(e, n - 1);
      OptionDepth(e, n - 1);
      G.DepthJoined([e], [inner]);
      G.DepthOne(e);
      G.DepthOne(inner);
      assert [e] + [inner] == [e, inner];
      OneSequence([e, inner]);
    }
  }

  lemma OneSequence(es: seq<G.Element>)
    ensures G.DepthAlts([G.Sequence(es)]) == G.DepthSeq(es)
  {
    assert G.DepthAlts([]) == 0;
  }

  lemma {:induction false} CopiesDepth(e: G.Element, n: nat)
    ensures G.DepthSeq(CopyImages(e, n)) == if n == 0 then 0 else G.Depth(e)
  {
    if n > 0 {
      CopiesDepth(e, n - 1);
      G.DepthOne(e);
      G.DepthJoined([e], CopyImages(e, n - 1));
    }
  }

  /** A repetition's deepest copy stands where its item's depth is added to. */
  lemma RepImagesDepth(e: G.Element, min: nat, max: Option<nat>)
    requires min > 0 || max != Some(0)
    ensures forall at: nat | at >= 1 ::
              at + G.DepthSeq(RepImages(e, min, max)) == R.RepDepth(at, R.Options(min, max), max) + G.Depth(e)
  {
    hide CopyImages, OptionImage, G.DepthSeq;
    var opts, copies := R.Options(min, max), CopyImages(e, min);
    CopiesDepth(e, min);
    if max.None? {
      G.DepthJoined(copies, [G.Star(e)]);
      G.DepthOne(G.Star(e));
    } else if opts > 0 {
      OptionDepth(e, opts);
      G.DepthJoined(copies, [OptionImage(e, opts)]);
      G.DepthOne(OptionImage(e, opts));
    } else {
      Ends(copies);
    }
  }

  // ---- the verdict on a part

  lemma {:induction false} AtomVerdict(at: nat, p: R.Part)
    requires at >= 1 && Sound(p)
    ensures R.AtomAt(at, p).Text? <==> Spelled(p) && at + G.Depth(Image(p)) <= 129
    ensures Spelled(p) ==> PastLimit(R.AtomAt(at, p))
    decreases p, 2
  {
    PartVerdict(if p.Rep? then at + 1 else at, p);
    if p.Rep? {
      OneSequence(RepImages(Image(p.item), p.min, p.max));
    } else {
      G.DepthOne(Image(p));
    }
  }

  lemma {:induction false} PartVerdict(at: nat, p: R.Part)
    requires at >= 1 && Sound(p)
    ensures R.PartAt(at, p).Text? <==> Spelled(p) && at + G.DepthSeq(Images(p)) <= 129
    ensures Spelled(p) ==> PastLimit(R.PartAt(at, p))
    decreases p, 1
  {
    hide G.DepthSeq, SoundLeaf, SpelledLeaf, LeafImage, R.LeafText;
    match p
    case Rep(i, min, max) =>
      if min > 0 || max != Some(0) {
        var opts := R.Options(min, max);
        AtomVerdict(R.RepDepth(at, opts, max), i);
        RepImagesDepth(Image(i), min, max);
      }
    case _ =>
      G.DepthOne(Image(p));
      OneVerdict(at, p);
  }

  lemma {:induction false} OneVerdict(at: nat, p: R.Part)
    requires at >= 1 && Sound(p) && !p.Rep?
    ensures R.PartAt(at, p).Text? <==> Spelled(p) && at + G.Depth(Image(p)) <= 129
    ensures Spelled(p) ==> PastLimit(R.PartAt(at, p))
    decreases p, 0
  {
    hide G.DepthSeq, G.DepthAlts, SoundLeaf, SpelledLeaf, LeafImage, R.LeafText, R.AltsAt, R.AltAt, R.AtomAt;
    match p
    case Tok(l) =>
      LeafIsRead(l);
      LeafDepth(l);
    case Star(i) => AtomVerdict(at + 1, i);
    case Plus(i) => AtomVerdict(at + 1, i);
    case Opt(i) => AtomVerdict(at + 1, i);
    case Group(alts) => AltsVerdict(at + 1, alts);
    case Tail(q) =>
      OneSequence(AltImage(q.els));
      if q.els != [] { AltVerdict(at + 2, q.els); }
    case Grp(q) =>
      OneSequence(AltImage(q.els));
      if q.els != [] { AltVerdict(at + 1, q.els); }
  }

  lemma LeafDepth(l: R.Leaf)
    ensures G.Depth(LeafImage(l)) == 1
  {
  }

  lemma {:induction false} AltVerdict(at: nat, els: seq<R.Part>)
    requires at >= 1 && SoundAlt(els) && els != []
    ensures R.AltAt(at, els).Text? <==> SpelledAlt(els) && at + G.DepthSeq(AltImage(els)) <= 129
    ensures SpelledAlt(els) ==> PastLimit(R.AltAt(at, els))
    decreases els
  {
    hide G.DepthSeq, R.PartAt, Sound, Spelled, Images;
    PartVerdict(at, els[0]);
    G.DepthJoined(Images(els[0]), AltImage(els[1..]));
    if |els| == 1 {
      NoDepth();
    } else {
      AltVerdict(at, els[1..]);
    }
  }

  lemma NoDepth()
    ensures G.DepthSeq(AltImage([])) == 0 && SpelledAlt([]) && SoundAlt([])
  {
  }

  // ---- the verdict on alternatives

  lemma {:induction false} FilledVerdict(at: nat, alts: seq<R.Alt>)
    requires at >= 1 && SoundAlts(alts)
    ensures var w := R.GlueAll(R.FilledAt(at, alts), " | ");
            (R.SomeFilled(alts) ==>
              (w.Text? <==> SpelledAlts(alts) && at + G.DepthAlts(FilledImages(alts)) <= 129))
            && (SpelledAlts(alts) ==> PastLimit(w))
    ensures R.SomeFilled(alts) <==> R.FilledAt(at, alts) != []
    ensures !R.SomeFilled(alts) ==> SpelledAlts(alts) && G.DepthAlts(FilledImages(alts)) == 0
    decreases alts, 0
  {
    hide R.AltAt, AltImage, G.DepthSeq, SpelledAlt, SoundAlt;
    if alts != [] {
      var more := R.FilledAt(at, alts[1..]);
      FilledVerdict(at, alts[1..]);
      NoDepth();
      if alts[0].els == [] {
        Ends(more);
        Ends(FilledImages(alts[1..]));
      } else {
        var w := R.AltAt(at, alts[0].els);
        AltVerdict(at, alts[0].els);
        assert ([w] + more)[1..] == more;
        G.DepthAltsJoined([G.Sequence(AltImage(alts[0].els))], FilledImages(alts[1..]));
        OneSequence(AltImage(alts[0].els));
      }
    }
  }

  lemma {:induction false} AltsVerdict(at: nat, alts: seq<R.Alt>)
    requires at >= 1 && SoundAlts(alts)
    ensures R.AltsAt(at, alts).Text? <==>
              R.SomeFilled(alts) && SpelledAlts(alts) && at + G.DepthAlts(AltsImage(alts)) <= 129
    ensures R.SomeFilled(alts) && SpelledAlts(alts) ==> PastLimit(R.AltsAt(at, alts))
    decreases alts, 1
  {
    hide R.FilledAt, FilledImages, R.GlueAll, G.DepthAlts, SpelledAlts, SoundAlts;
    FilledVerdict(at, alts);
    FilledVerdict(at + 2, alts);
    G.DepthOne(G.Opt(G.Group(FilledImages(alts), None)));
  }

  // ---- the verdict on a file

  predicate SpelledRule(r: R.Rule) {
    ValidName(r.name) && R.SomeFilled(r.alts) && SpelledAlts(r.alts)
  }

  /** A rule with a spelling is refused exactly when its tree would nest past the limit. */
  lemma RuleVerdict(r: R.Rule)
    requires SoundAlts(r.alts)
    ensures R.RuleText(r).Text? <==> SpelledRule(r) && G.DepthAlts(AltsImage(r.alts)) <= 128
    ensures SpelledRule(r) ==> PastLimit(R.RuleText(r))
  {
    AltsVerdict(1, r.alts);
  }

  lemma {:induction false} FileVerdict(rs: seq<R.Rule>)
    requires forall r | r in rs :: SoundAlts(r.alts)
    ensures R.FileAt(rs).Text? <==>
              forall r | r in rs :: SpelledRule(r) && G.DepthAlts(AltsImage(r.alts)) <= 128
    ensures (forall r | r in rs :: SpelledRule(r)) ==> PastLimit(R.FileAt(rs))
  {
    RulesVerdict(rs);
  }

  lemma {:induction false} RulesVerdict(rs: seq<R.Rule>)
    requires forall r | r in rs :: SoundAlts(r.alts)
    ensures R.GlueAll(R.RuleTexts(rs), "\n").Text? <==>
              forall r | r in rs :: SpelledRule(r) && G.DepthAlts(AltsImage(r.alts)) <= 128
    ensures (forall r | r in rs :: SpelledRule(r)) ==> PastLimit(R.GlueAll(R.RuleTexts(rs), "\n"))
  {
    hide R.RuleText, SpelledRule, AltsImage, SoundAlts;
    if rs != [] {
      RuleVerdict(rs[0]);
      RulesVerdict(rs[1..]);
      assert R.RuleTexts(rs)[1..] == R.RuleTexts(rs[1..]);
      assert forall r :: r in rs <==> r == rs[0] || r in rs[1..];
    }
  }
}
