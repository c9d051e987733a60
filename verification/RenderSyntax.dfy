/**
 What the render writes, as source the reader takes: the concrete syntax of every text it makes, and
 the grammar that syntax stands for.
 */
module RenderSyntax {
  import opened Wrappers
  import opened Text
  import G = Grammar
  import opened CharClass
  import opened Syntax
  import opened Reader
  import opened Layout
  import opened ClassWriter
  import opened Literals
  import R = Render

  // ---- leaves

  /** A class leaf is a class as a front-end compiled it. */
  predicate SoundLeaf(l: R.Leaf) {
    l.ClassOf? ==> Readable(l.ranges)
  }

  /** Whether W3C EBNF has a spelling for a leaf. */
  predicate SpelledLeaf(l: R.Leaf) {
    match l
    case Literal(t, cs) => OneTerminal(t, cs)
    case Named(n) => ValidName(n)
    case _ => true
  }

  function LeafAtom(l: R.Leaf): Atom {
    match l
    case Literal(t, cs) => LitAtom(t, cs)
    case ClassOf(neg, rs) => Class(neg, MembersText(Pieces(rs), false))
    case AnyChar => Class(false, "#x0-#x10FFFF")
    case Named(n) => Name(n)
  }

  function LeafImage(l: R.Leaf): G.Element {
    match l
    case Literal(t, cs) => LitImage(t, cs)
    case ClassOf(neg, rs) => G.Regex(neg, if ValidRanges(rs) then PartsIn(rs) else [], None)
    case AnyChar => G.Regex(false, [G.Part(0, 0x10_FFFF)], None)
    case Named(n) => G.Ref(n, None)
  }

  lemma LeafIsRead(l: R.Leaf)
    requires SoundLeaf(l)
    ensures R.LeafText(l).Some? <==> SpelledLeaf(l)
    ensures SpelledLeaf(l) ==>
              && R.LeafText(l) == Some(AtomText(LeafAtom(l)))
              && SpacedAtom(LeafAtom(l)) && EraseAtom(LeafAtom(l)) == LeafImage(l)
  {
    hide MembersText, LitText, OneTerminal, LitAtom, LitImage;
    match l
    case Literal(t, cs) =>
      WrittenIffOneTerminal(t, cs);
      if OneTerminal(t, cs) { LitIsRead(t, cs); }
    case ClassOf(neg, rs) =>
      PatternIsCut(neg, rs);
      MembersTextIsRead(rs, false);
      MarksFold(rs);
    case AnyChar => AnyIsRead();
    case Named(n) =>
  }

  // ---- the syntax of what is written

  /** An item with one blank before it. */
  function Glued(e: Elem): Item {
    Item(" ", None, e)
  }

  function Post(e: Elem, op: char): Elem {
    Elem(e.atom, e.posts + [op])
  }

  function Parens(items: seq<Item>): Atom {
    Paren([Seq(items, " ")])
  }

  /** An item in n nested options, all but the innermost over a group. */
  function OptionElem(e: Elem, n: nat): Elem {
    if n <= 1 then Post(e, '?') else Elem(Parens([Glued(e), Glued(OptionElem(e, n - 1))]), "?")
  }

  function CopyItems(e: Elem, n: nat): seq<Item> {
    if n == 0 then [] else [Glued(e)] + CopyItems(e, n - 1)
  }

  /** A counted repetition: its copies, then its loop or its nested options. */
  function RepItems(e: Elem, min: nat, max: Option<nat>): seq<Item> {
    var opts := R.Options(min, max);
    CopyItems(e, min) +
    (if max.None? then [Glued(Post(e, '*'))] else if opts > 0 then [Glued(OptionElem(e, opts))] else [])
  }

  function ElemOf(p: R.Part): Elem
    decreases p, 0
  {
    match p
    case Tok(l) => Elem(LeafAtom(l), "")
    case Star(i) => Post(ElemOf(i), '*')
    case Plus(i) => Post(ElemOf(i), '+')
    case Opt(i) => Post(ElemOf(i), '?')
    case Rep(i, min, max) => Elem(Parens(RepItems(ElemOf(i), min, max)), "")
    case Group(alts) => Elem(Paren(SeqsOf(alts, " ")), "")
    case Tail(q) => Elem(Parens(AltItems(q.els)), "?")
    case Grp(q) => Elem(Parens(AltItems(q.els)), "")
  }

  function ItemsOf(p: R.Part): seq<Item>
    decreases p, 1
  {
    if p.Rep? then RepItems(ElemOf(p.item), p.min, p.max) else [Glued(ElemOf(p))]
  }

  function AltItems(els: seq<R.Part>): seq<Item>
    decreases els
  {
    if els == [] then [] else ItemsOf(els[0]) + AltItems(els[1..])
  }

  function FilledSeqs(alts: seq<R.Alt>, last: string): seq<Seq>
    decreases alts, 0
  {
    if alts == [] then []
    else if alts[0].els == [] then FilledSeqs(alts[1..], last)
    else [Seq(AltItems(alts[0].els), if R.SomeFilled(alts[1..]) then " " else last)] + FilledSeqs(alts[1..], last)
  }

  /** Alternatives, `last` behind the last of them; the others optional where one is empty. */
  function SeqsOf(alts: seq<R.Alt>, last: string): seq<Seq>
    decreases alts, 1
  {
    if R.AllFilled(alts) then FilledSeqs(alts, last)
    else [Seq([Glued(Elem(Paren(FilledSeqs(alts, " ")), "?"))], last)]
  }

  function ProdOf(r: R.Rule): Prod {
    Prod("", r.name, " ", true, SeqsOf(r.alts, "\n"), false)
  }

  function ProdsOf(rs: seq<R.Rule>): (ps: seq<Prod>)
    ensures |ps| == |rs|
  {
    if rs == [] then [] else [ProdOf(rs[0])] + ProdsOf(rs[1..])
  }

  function FileOf(rs: seq<R.Rule>): File {
    File(ProdsOf(rs), if rs == [] then "\n" else "")
  }

  // ---- the grammar it stands for

  function OptionImage(e: G.Element, n: nat): G.Element {
    if n <= 1 then G.Opt(e) else G.Opt(G.Group([G.Sequence([e, OptionImage(e, n - 1)])], None))
  }

  function CopyImages(e: G.Element, n: nat): seq<G.Element> {
    if n == 0 then [] else [e] + CopyImages(e, n - 1)
  }

  function RepImages(e: G.Element, min: nat, max: Option<nat>): seq<G.Element> {
    var opts := R.Options(min, max);
    CopyImages(e, min) +
    (if max.None? then [G.Star(e)] else if opts > 0 then [OptionImage(e, opts)] else [])
  }

  function Image(p: R.Part): G.Element
    decreases p, 0
  {
    match p
    case Tok(l) => LeafImage(l)
    case Star(i) => G.Star(Image(i))
    case Plus(i) => G.Plus(Image(i))
    case Opt(i) => G.Opt(Image(i))
    case Rep(i, min, max) => G.Group([G.Sequence(RepImages(Image(i), min, max))], None)
    case Group(alts) => G.Group(AltsImage(alts), None)
    case Tail(q) => G.Opt(G.Group([G.Sequence(AltImage(q.els))], None))
    case Grp(q) => G.Group([G.Sequence(AltImage(q.els))], None)
  }

  /** The elements a part is written as: more than one for a repetition. */
  function Images(p: R.Part): seq<G.Element>
    decreases p, 1
  {
    if p.Rep? then RepImages(Image(p.item), p.min, p.max) else [Image(p)]
  }

  function AltImage(els: seq<R.Part>): seq<G.Element>
    decreases els
  {
    if els == [] then [] else Images(els[0]) + AltImage(els[1..])
  }

  function FilledImages(alts: seq<R.Alt>): seq<G.Sequence>
    decreases alts, 0
  {
    if alts == [] then []
    else (if alts[0].els == [] then [] else [G.Sequence(AltImage(alts[0].els))]) + FilledImages(alts[1..])
  }

  function AltsImage(alts: seq<R.Alt>): seq<G.Sequence>
    decreases alts, 1
  {
    if R.AllFilled(alts) then FilledImages(alts)
    else [G.Sequence([G.Opt(G.Group(FilledImages(alts), None))])]
  }

  function RulesImage(rs: seq<R.Rule>): (g: seq<G.Production>)
    ensures |g| == |rs|
  {
    if rs == [] then [] else [G.Production(rs[0].name, AltsImage(rs[0].alts), None)] + RulesImage(rs[1..])
  }

  // ---- which parts can be written

  predicate Sound(p: R.Part) {
    match p
    case Tok(l) => SoundLeaf(l)
    case Star(i) => Sound(i)
    case Plus(i) => Sound(i)
    case Opt(i) => Sound(i)
    case Rep(i, _, _) => Sound(i)
    case Group(alts) => SoundAlts(alts)
    case Tail(q) => SoundAlt(q.els)
    case Grp(q) => SoundAlt(q.els)
  }

  predicate SoundAlt(els: seq<R.Part>) {
    els != [] ==> Sound(els[0]) && SoundAlt(els[1..])
  }

  predicate SoundAlts(alts: seq<R.Alt>) {
    alts != [] ==> SoundAlt(alts[0].els) && SoundAlts(alts[1..])
  }

  /** Whether W3C EBNF has a spelling for a part, however deep it stands. */
  predicate Spelled(p: R.Part) {
    match p
    case Tok(l) => SpelledLeaf(l)
    case Star(i) => Spelled(i)
    case Plus(i) => Spelled(i)
    case Opt(i) => Spelled(i)
    case Rep(i, min, max) => (min > 0 || max != Some(0)) && Spelled(i)
    case Group(alts) => R.SomeFilled(alts) && SpelledAlts(alts)
    case Tail(q) => q.els != [] && SpelledAlt(q.els)
    case Grp(q) => q.els != [] && SpelledAlt(q.els)
  }

  predicate SpelledAlt(els: seq<R.Part>) {
    els != [] ==> Spelled(els[0]) && SpelledAlt(els[1..])
  }

  predicate SpelledAlts(alts: seq<R.Alt>) {
    alts != [] ==> SpelledAlt(alts[0].els) && SpelledAlts(alts[1..])
  }
}
