/**
 The whole round trip: every grammar EBNF can spell is written by the render's text layer, and the text
 is taken by the front-end and read as that grammar.
 */
module GrammarRoundTrip {
  import opened Wrappers
  import opened Text
  import opened Grammar
  import opened CharClass
  import opened ClassWriter
  import opened ClassPattern
  import opened Literals
  import opened Syntax
  import opened Reader
  import opened RenderSyntax
  import RenderText
  import opened RenderDepth
  import opened RenderRoundTrip
  import opened FrontEnd
  import R = Render

  /** Whether EBNF can spell an element: one terminal a literal, ranges in order, no empty alternative. */
  predicate Spellable(e: Element) {
    match e
    case Term(l, sp) => sp.None? && OneTerminal(l, true)
    case Regex(_, parts, sp) => sp.None? && parts != [] && forall p | p in parts :: Ordered(p)
    case Ref(n, sp) => sp.None? && ValidName(n)
    case Group(alts, sp) => sp.None? && SpellableAlts(alts)
    case Opt(i) => Spellable(i)
    case Star(i) => Spellable(i)
    case Plus(i) => Spellable(i)
  }

  predicate SpellableSeq(es: seq<Element>) {
    es != [] && Spellable(es[0]) && (|es| > 1 ==> SpellableSeq(es[1..]))
  }

  predicate SpellableAlts(alts: seq<Sequence>) {
    alts != [] && SpellableSeq(alts[0].els) && (|alts| > 1 ==> SpellableAlts(alts[1..]))
  }

  predicate SpellableProd(p: Production) {
    p.sp.None? && ValidName(p.name) && SpellableAlts(p.alts)
  }

  // ---- a grammar as the render holds it

  function Held(e: Element): R.Part {
    match e
    case Term(l, _) => R.Tok(R.Literal(l, true))
    case Regex(n, parts, _) => R.Tok(R.ClassOf(n, RangesOf(parts, Astral(parts))))
    case Ref(n, _) => R.Tok(R.Named(n))
    case Group(alts, _) => R.Group(HeldAlts(alts))
    case Opt(i) => R.Opt(Held(i))
    case Star(i) => R.Star(Held(i))
    case Plus(i) => R.Plus(Held(i))
  }

  function HeldSeq(es: seq<Element>): (r: seq<R.Part>)
    ensures |r| == |es|
  {
    if es == [] then [] else [Held(es[0])] + HeldSeq(es[1..])
  }

  function HeldAlts(alts: seq<Sequence>): (r: seq<R.Alt>)
    ensures |r| == |alts|
  {
    if alts == [] then [] else [R.Alt(HeldSeq(alts[0].els))] + HeldAlts(alts[1..])
  }

  function HeldProds(prods: seq<Production>): (r: seq<R.Rule>)
    ensures |r| == |prods|
  {
    if prods == [] then [] else [HeldProd(prods[0])] + HeldProds(prods[1..])
  }

  function HeldProd(p: Production): R.Rule {
    R.Rule(p.name, HeldAlts(p.alts))
  }

  lemma ClassIsHeld(parts: seq<Part>)
    requires parts != [] && forall p | p in parts :: Ordered(p)
    ensures var rs := RangesOf(parts, Astral(parts)); Readable(rs) && PartsIn(rs) == parts
  {
    forall p | p in parts ensures p.hi > 0xFFFF ==> Astral(parts) {
    }
    RangesAreValid(parts, Astral(parts));
  }

  lemma {:induction false} HeldImage(e: Element)
    requires Spellable(e)
    ensures Image(Held(e)) == e && Sound(Held(e)) && Spelled(Held(e)) && !Held(e).Rep?
    decreases e
  {
    match e
    case Regex(_, parts, _) => ClassIsHeld(parts);
    case Group(alts, _) => HeldAltsImage(alts);
    case Opt(i) => HeldImage(i);
    case Star(i) => HeldImage(i);
    case Plus(i) => HeldImage(i);
    case _ =>
  }

  lemma {:induction false} HeldSeqImage(es: seq<Element>)
    requires SpellableSeq(es)
    ensures AltImage(HeldSeq(es)) == es && SoundAlt(HeldSeq(es)) && SpelledAlt(HeldSeq(es)) && HeldSeq(es) != []
    decreases es
  {
    hide Spellable, Held, Image;
    HeldImage(es[0]);
    assert HeldSeq(es)[1..] == HeldSeq(es[1..]);
    if |es| > 1 {
      HeldSeqImage(es[1..]);
      assert [es[0]] + es[1..] == es;
    } else {
      assert HeldSeq(es[1..]) == [];
      Ends([es[0]]);
    }
  }

  lemma {:induction false} HeldFilled(alts: seq<Sequence>)
    requires SpellableAlts(alts)
    ensures R.AllFilled(HeldAlts(alts)) && R.SomeFilled(HeldAlts(alts))
    decreases alts, 0
  {
    hide SpellableSeq, HeldSeq;
    HeldSeqImage(alts[0].els);
    assert HeldAlts(alts)[1..] == HeldAlts(alts[1..]);
    if |alts| > 1 { HeldFilled(alts[1..]); } else { assert HeldAlts(alts[1..]) == []; }
  }

  lemma {:induction false} HeldAltsImage(alts: seq<Sequence>)
    requires SpellableAlts(alts)
    ensures FilledImages(HeldAlts(alts)) == alts && AltsImage(HeldAlts(alts)) == alts
    ensures SoundAlts(HeldAlts(alts)) && SpelledAlts(HeldAlts(alts))
    ensures R.SomeFilled(HeldAlts(alts))
    decreases alts, 1
  {
    hide SpellableSeq, HeldSeq, AltImage, R.AllFilled, R.SomeFilled;
    HeldFilled(alts);
    HeldSeqImage(alts[0].els);
    assert HeldAlts(alts)[1..] == HeldAlts(alts[1..]);
    assert alts[0] == Sequence(alts[0].els);
    if |alts| > 1 {
      HeldAltsImage(alts[1..]);
      assert [alts[0]] + alts[1..] == alts;
    } else {
      assert HeldAlts(alts[1..]) == [];
      Ends([alts[0]]);
    }
  }

  lemma HeldProdImage(p: Production)
    requires SpellableProd(p)
    ensures var r := HeldProd(p); SpelledRule(r) && SoundAlts(r.alts) && r.name == p.name && AltsImage(r.alts) == p.alts
  {
    HeldAltsImage(p.alts);
  }

  lemma {:induction false} HeldProdsImage(prods: seq<Production>)
    requires forall p | p in prods :: SpellableProd(p)
    ensures RulesImage(HeldProds(prods)) == prods && RenderText.SoundRules(HeldProds(prods))
  {
    hide SpellableAlts, HeldProd, AltsImage, SpelledRule, SoundAlts;
    if prods != [] {
      var p := prods[0];
      assert SpellableProd(p);
      HeldProdImage(p);
      HeldProdsImage(prods[1..]);
      assert HeldProds(prods)[1..] == HeldProds(prods[1..]);
      assert p == Production(p.name, p.alts, None);
      assert [p] + prods[1..] == prods;
    }
  }

  lemma {:induction false} HeldProdsIn(prods: seq<Production>)
    ensures forall r | r in HeldProds(prods) :: exists p :: p in prods && r == HeldProd(p)
    ensures forall p | p in prods :: HeldProd(p) in HeldProds(prods)
  {
    hide HeldProd;
    if prods != [] { HeldProdsIn(prods[1..]); }
  }

  // ---- the law

  /** The text the render writes for a grammar, which it refuses only past the depth limit. */
  function Rendered(prods: seq<Production>): R.Written {
    R.FileAt(HeldProds(prods))
  }

  /** A grammar EBNF can spell is written exactly when nothing in it nests past the limit. */
  lemma RenderedIffShallow(prods: seq<Production>)
    requires forall p | p in prods :: SpellableProd(p)
    ensures Rendered(prods).Text? <==> forall p | p in prods :: DepthAlts(p.alts) <= 128
    ensures PastLimit(Rendered(prods))
  {
    hide R.FileAt, HeldProds, SpelledRule, HeldProd, AltsImage, SoundAlts;
    HeldProdsImage(prods);
    HeldProdsIn(prods);
    forall p | p in prods
      ensures var r := HeldProd(p); SpelledRule(r) && SoundAlts(r.alts) && AltsImage(r.alts) == p.alts
    {
      HeldProdImage(p);
    }
    FileVerdict(HeldProds(prods));
  }

  /**
   Written and read again, a grammar is the same grammar; and the front-end takes the text exactly when
   there is a rule in it, no two of one name, and no choice with two empty alternatives.
   */
  lemma GrammarRoundTrip(prods: seq<Production>)
    requires (forall p | p in prods :: SpellableProd(p)) && Rendered(prods).Text?
    ensures var text := Rendered(prods).text;
            && ReadFile(text).Got?
            && BareAll(Located(text)) == prods
            && (Acceptable(text) <==> prods != [] && Distinct(prods) && Unambiguous(prods))
  {
    hide R.FileAt, HeldProds, SpelledRule, ReadFile, LocProds, Distinct, Unambiguous, Acceptable;
    HeldProdsImage(prods);
    HeldProdsIn(prods);
    RenderedIsRead(HeldProds(prods));
    AcceptableBare(Rendered(prods).text);
  }

  /** The same of any elements the render holds: made-optional alternatives, tails, repetitions among them. */
  lemma RulesRoundTrip(rs: seq<R.Rule>)
    requires RenderText.SoundRules(rs) && R.FileAt(rs).Text?
    ensures var text, g := R.FileAt(rs).text, RulesImage(rs);
            && ReadFile(text).Got?
            && BareAll(Located(text)) == g
            && (Acceptable(text) <==> g != [] && Distinct(g) && Unambiguous(g))
  {
    hide R.FileAt, ReadFile, LocProds, Distinct, Unambiguous, Acceptable;
    RenderedIsRead(rs);
    AcceptableBare(R.FileAt(rs).text);
  }
}
