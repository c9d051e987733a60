/**
 The render's contract: what it writes, the front-end reads back as the grammar it was written from.
 */
module RenderRoundTrip {
  import opened Wrappers
  import opened Text
  import G = Grammar
  import opened Syntax
  import opened Reader
  import opened Layout
  import opened RenderSyntax
  import opened RenderText
  import opened RenderDepth
  import DepthRegisters
  import R = Render

  // ---- the syntax is spaced

  lemma BlankIsGap(c: char)
    requires IsSpace(c)
    ensures IsGap([c]) && IsGap("")
  {
    assert [c][1..] == "";
    assert GapStep([c]) == 1;
  }

  /** Items with one blank before each. */
  predicate AllGlued(items: seq<Item>) {
    forall i | 0 <= i < |items| :: items[i] == Glued(items[i].elem) && SpacedElem(items[i].elem)
  }

  lemma {:induction false} GluedIsSpaced(items: seq<Item>, prev: Option<Elem>)
    requires AllGlued(items)
    ensures SpacedItems(items, prev)
  {
    if items != [] {
      BlankIsGap(' ');
      assert items[0] == Glued(items[0].elem);
      forall i | 0 <= i < |items[1..]| ensures items[1..][i] == items[i + 1] {
      }
      GluedIsSpaced(items[1..], Some(items[0].elem));
    }
  }

  /** An element under one postfix operator. */
  function Under(op: char, e: G.Element): G.Element {
    if op == '?' then G.Opt(e) else if op == '*' then G.Star(e) else G.Plus(e)
  }

  lemma PostIsSpaced(e: Elem, op: char)
    requires SpacedElem(e) && IsPostfix(op)
    ensures SpacedElem(Post(e, op)) && EraseElem(Post(e, op)) == Under(op, EraseElem(e))
  {
    assert (e.posts + [op])[..|e.posts|] == e.posts;
  }

  lemma OneIsSpaced(items: seq<Item>, last: string)
    requires AllGlued(items) && items != [] && (last == " " || last == "\n")
    ensures SpacedSeq(Seq(items, last))
  {
    GluedIsSpaced(items, None);
    BlankIsGap(last[0]);
    assert last == [last[0]];
  }

  lemma ParensSpaced(items: seq<Item>)
    requires AllGlued(items) && items != []
    ensures SpacedAtom(Parens(items))
  {
    OneIsSpaced(items, " ");
    assert [Seq(items, " ")][1..] == [];
  }

  // ---- the syntax of elements

  lemma {:induction false} EraseJoined(a: seq<Item>, b: seq<Item>)
    ensures EraseItems(a + b) == EraseItems(a) + EraseItems(b)
  {
    if a == [] {
      Ends(EraseItems(b));
      assert a + b == b;
    } else {
      assert (a + b)[1..] == a[1..] + b;
      EraseJoined(a[1..], b);
      Assoc([EraseElem(a[0].elem)], EraseItems(a[1..]), EraseItems(b));
    }
  }

  lemma GluedErased(e: Elem)
    ensures EraseItems([Glued(e)]) == [EraseElem(e)]
  {
    assert [Glued(e)][1..] == [];
    Ends([EraseElem(e)]);
  }

  /** A group of one alternative. */
  lemma ParensErased(items: seq<Item>)
    ensures EraseAtom(Parens(items)) == G.Group([G.Sequence(EraseItems(items))], None)
  {
    var q := Seq(items, " ");
    assert [q][1..] == [];
    Ends([G.Sequence(EraseItems(items))]);
  }

  lemma PlainErased(a: Atom)
    ensures EraseElem(Elem(a, "")) == EraseAtom(a) && EraseElem(Elem(a, "?")) == G.Opt(EraseAtom(a))
  {
    assert "?"[..0] == "";
  }

  lemma {:induction false} OptionSpaced(e: Elem, n: nat)
    requires SpacedElem(e) && n > 0
    ensures SpacedElem(OptionElem(e, n)) && EraseElem(OptionElem(e, n)) == OptionImage(EraseElem(e), n)
  {
    hide SpacedElem;
    if n == 1 {
      PostIsSpaced(e, '?');
    } else {
      var inner := OptionElem(e, n - 1);
      OptionSpaced(e, n - 1);
      var items := [Glued(e), Glued(inner)];
      ParensSpaced(items);
      ParensErased(items);
      PlainErased(Parens(items));
      EraseJoined([Glued(e)], [Glued(inner)]);
      GluedErased(e);
      GluedErased(inner);
      assert [Glued(e)] + [Glued(inner)] == items;
      assert [EraseElem(e)] + [EraseElem(inner)] == [EraseElem(e), EraseElem(inner)];
      OptionalSpaced(Parens(items));
    }
  }

  lemma OptionalSpaced(a: Atom)
    requires SpacedAtom(a)
    ensures SpacedElem(Elem(a, "?")) && SpacedElem(Elem(a, ""))
  {
  }

  lemma {:induction false} CopiesSpaced(e: Elem, n: nat)
    requires SpacedElem(e)
    ensures AllGlued(CopyItems(e, n)) && EraseItems(CopyItems(e, n)) == CopyImages(EraseElem(e), n)
  {
    if n > 0 {
      CopiesSpaced(e, n - 1);
      GluedErased(e);
      EraseJoined([Glued(e)], CopyItems(e, n - 1));
    }
  }

  lemma RepSpaced(e: Elem, min: nat, max: Option<nat>)
    requires SpacedElem(e)
    ensures AllGlued(RepItems(e, min, max)) && EraseItems(RepItems(e, min, max)) == RepImages(EraseElem(e), min, max)
    ensures min > 0 || max != Some(0) ==> RepItems(e, min, max) != []
  {
    hide SpacedElem, OptionElem, OptionImage, EraseElem;
    var opts, copies := R.Options(min, max), CopyItems(e, min);
    CopiesSpaced(e, min);
    if max.None? {
      PostIsSpaced(e, '*');
      GluedErased(Post(e, '*'));
      EraseJoined(copies, [Glued(Post(e, '*'))]);
    } else if opts > 0 {
      OptionSpaced(e, opts);
      GluedErased(OptionElem(e, opts));
      EraseJoined(copies, [Glued(OptionElem(e, opts))]);
    } else {
      Ends(copies);
      Ends(CopyImages(EraseElem(e), min));
    }
  }

  lemma {:induction false} ElemSpaced(p: R.Part)
    requires Sound(p) && Spelled(p)
    ensures SpacedElem(ElemOf(p)) && EraseElem(ElemOf(p)) == Image(p)
    decreases p, 0
  {
    hide SpacedElem, SpacedAtom, EraseElem, EraseAtom, LeafAtom, LeafImage, SpelledLeaf, SoundLeaf;
    hide RepItems, RepImages, AltItems, AltImage;
    match p
    case Tok(l) =>
      LeafIsRead(l);
      PlainErased(LeafAtom(l));
      OptionalSpaced(LeafAtom(l));
    case Star(i) => ElemSpaced(i); PostIsSpaced(ElemOf(i), '*');
    case Plus(i) => ElemSpaced(i); PostIsSpaced(ElemOf(i), '+');
    case Opt(i) => ElemSpaced(i); PostIsSpaced(ElemOf(i), '?');
    case Rep(i, min, max) =>
      ElemSpaced(i);
      RepSpaced(ElemOf(i), min, max);
      OneParens(RepItems(ElemOf(i), min, max));
    case Group(alts) =>
      AltsSpaced(alts, " ");
      AltsParen(SeqsOf(alts, " "));
    case Tail(q) =>
      AltSpaced(q.els);
      OneParens(AltItems(q.els));
    case Grp(q) =>
      AltSpaced(q.els);
      OneParens(AltItems(q.els));
  }

  lemma OneParens(items: seq<Item>)
    requires AllGlued(items) && items != []
    ensures SpacedElem(Elem(Parens(items), "")) && SpacedElem(Elem(Parens(items), "?"))
    ensures var g := G.Group([G.Sequence(EraseItems(items))], None);
            EraseElem(Elem(Parens(items), "")) == g && EraseElem(Elem(Parens(items), "?")) == G.Opt(g)
  {
    ParensSpaced(items);
    ParensErased(items);
    PlainErased(Parens(items));
    OptionalSpaced(Parens(items));
  }

  lemma AltsParen(alts: seq<Seq>)
    requires Layout.SpacedAlts(alts)
    ensures SpacedElem(Elem(Paren(alts), "")) && SpacedElem(Elem(Paren(alts), "?"))
    ensures var g := G.Group(EraseAlts(alts), None);
            EraseElem(Elem(Paren(alts), "")) == g && EraseElem(Elem(Paren(alts), "?")) == G.Opt(g)
  {
    PlainErased(Paren(alts));
    OptionalSpaced(Paren(alts));
  }

  lemma {:induction false} PartSpaced(p: R.Part)
    requires Sound(p) && Spelled(p)
    ensures AllGlued(ItemsOf(p)) && ItemsOf(p) != [] && EraseItems(ItemsOf(p)) == Images(p)
    decreases p, 1
  {
    hide SpacedElem, EraseElem, RepItems, RepImages;
    if p.Rep? {
      ElemSpaced(p.item);
      RepSpaced(ElemOf(p.item), p.min, p.max);
    } else {
      ElemSpaced(p);
      GluedErased(ElemOf(p));
    }
  }

  lemma {:induction false} AltSpaced(els: seq<R.Part>)
    requires SoundAlt(els) && SpelledAlt(els)
    ensures AllGlued(AltItems(els)) && EraseItems(AltItems(els)) == AltImage(els)
    ensures els != [] ==> AltItems(els) != []
    decreases els
  {
    hide SpacedElem, Sound, Spelled, ItemsOf, Images;
    if els != [] {
      PartSpaced(els[0]);
      AltSpaced(els[1..]);
      EraseJoined(ItemsOf(els[0]), AltItems(els[1..]));
      JoinGlued(ItemsOf(els[0]), AltItems(els[1..]));
    }
  }

  lemma JoinGlued(a: seq<Item>, b: seq<Item>)
    requires AllGlued(a) && AllGlued(b)
    ensures AllGlued(a + b)
  {
  }

  // ---- the syntax of alternatives

  lemma {:induction false} FilledSpaced(alts: seq<R.Alt>, last: string)
    requires SoundAlts(alts) && SpelledAlts(alts) && (last == " " || last == "\n")
    ensures SpacedMore(FilledSeqs(alts, last)) && EraseAlts(FilledSeqs(alts, last)) == FilledImages(alts)
    ensures R.SomeFilled(alts) ==> FilledSeqs(alts, last) != []
    decreases alts, 0
  {
    hide AltItems, AltImage, SpacedSeq, SoundAlt, SpelledAlt, EraseItems;
    if alts != [] {
      var els, more := alts[0].els, FilledSeqs(alts[1..], last);
      FilledSpaced(alts[1..], last);
      if els == [] {
        Ends(FilledImages(alts[1..]));
      } else {
        AltSpaced(els);
        var end := if R.SomeFilled(alts[1..]) then " " else last;
        OneIsSpaced(AltItems(els), end);
        var q := Seq(AltItems(els), end);
        assert ([q] + more)[1..] == more;
      }
    }
  }

  lemma {:induction false} AltsSpaced(alts: seq<R.Alt>, last: string)
    requires SoundAlts(alts) && SpelledAlts(alts) && R.SomeFilled(alts) && (last == " " || last == "\n")
    ensures Layout.SpacedAlts(SeqsOf(alts, last)) && EraseAlts(SeqsOf(alts, last)) == AltsImage(alts)
    decreases alts, 1
  {
    hide FilledSeqs, FilledImages, R.SomeFilled, R.AllFilled, SpelledAlts, SoundAlts, SpacedElem, EraseElem;
    if R.AllFilled(alts) {
      FilledSpaced(alts, last);
    } else {
      FilledSpaced(alts, " ");
      var e := Elem(Paren(FilledSeqs(alts, " ")), "?");
      AltsParen(FilledSeqs(alts, " "));
      var q := Seq([Glued(e)], last);
      OneIsSpaced([Glued(e)], last);
      GluedErased(e);
      assert [q][1..] == [];
      Ends([G.Sequence([EraseElem(e)])]);
    }
  }

  // ---- the file

  lemma {:induction false} ProdsSpaced(rs: seq<R.Rule>)
    requires SoundRules(rs) && forall r | r in rs :: SpelledRule(r)
    ensures SpacedProds(ProdsOf(rs), if rs == [] then "\n" else "")
    ensures EraseProds(ProdsOf(rs)) == RulesImage(rs)
  {
    hide SeqsOf, AltsImage, EraseAlts, Layout.SpacedAlts, SpelledAlts, R.SomeFilled;
    if rs == [] {
      BlankIsGap('\n');
    } else {
      var r, ps := rs[0], ProdsOf(rs);
      assert SpelledRule(r);
      AltsSpaced(r.alts, "\n");
      BlankIsGap(' ');
      ProdsSpaced(rs[1..]);
      assert ps[1..] == ProdsOf(rs[1..]);
      LastPost(r.alts);
      if |rs| > 1 {
        assert SpelledRule(rs[1]) && ps[1] == ProdOf(rs[1]);
      } else {
        BlankIsGap('\n');
      }
    }
  }

  /** A line feed stands behind the last alternative. */
  lemma {:induction false} LastPost(alts: seq<R.Alt>)
    requires SoundAlts(alts) && SpelledAlts(alts) && R.SomeFilled(alts)
    ensures var qs := SeqsOf(alts, "\n"); qs != [] && qs[|qs| - 1].post == "\n" && qs[|qs| - 1].items != []
  {
    AltsSpaced(alts, "\n");
    if R.AllFilled(alts) { LastFilled(alts, "\n"); }
  }

  lemma {:induction false} LastFilled(alts: seq<R.Alt>, last: string)
    requires SoundAlts(alts) && SpelledAlts(alts) && R.SomeFilled(alts)
    ensures var qs := FilledSeqs(alts, last); qs != [] && qs[|qs| - 1].post == last && qs[|qs| - 1].items != []
    decreases alts
  {
    if R.SomeFilled(alts[1..]) {
      LastFilled(alts[1..], last);
    } else {
      NoneLeft(alts[1..], last);
      AltSpaced(alts[0].els);
    }
  }

  lemma {:induction false} NoneLeft(alts: seq<R.Alt>, last: string)
    requires !R.SomeFilled(alts)
    ensures FilledSeqs(alts, last) == []
    decreases alts
  {
    if alts != [] { NoneLeft(alts[1..], last); }
  }

  /** What the render writes is read back, as the grammar its elements stand for. */
  lemma RenderedIsRead(rs: seq<R.Rule>)
    requires SoundRules(rs) && R.FileAt(rs).Text?
    ensures ReadFile(R.FileAt(rs).text) == Got(FileOf(rs), "")
    ensures EraseProds(FileOf(rs).prods) == RulesImage(rs)
  {
    hide ProdsOf, RulesImage, R.FileAt, SpacedProds;
    RulesAreSound(rs);
    FileVerdict(rs);
    ProdsSpaced(rs);
    FileWritten(rs);
    SpacedIsRead(FileOf(rs));
  }

  lemma {:induction false} RulesAreSound(rs: seq<R.Rule>)
    requires SoundRules(rs)
    ensures forall r | r in rs :: SoundAlts(r.alts)
  {
    if rs != [] { RulesAreSound(rs[1..]); }
  }

  /** Nor does the Rust front-end's check on depth refuse what the render writes. */
  lemma {:induction false} RenderedFitsRegisters(rs: seq<R.Rule>)
    requires SoundRules(rs)
    requires forall r | r in rs :: SpelledRule(r) && G.DepthAlts(AltsImage(r.alts)) <= 128
    ensures forall p | p in ProdsOf(rs) ::
              SpacedProd(p) && G.DepthAlts(EraseAlts(p.alts)) <= 130
  {
    hide SeqsOf, AltsImage, EraseAlts, Layout.SpacedAlts, SpelledAlts, R.SomeFilled;
    if rs != [] {
      assert SpelledRule(rs[0]);
      AltsSpaced(rs[0].alts, "\n");
      BlankIsGap(' ');
      RenderedFitsRegisters(rs[1..]);
      assert ProdsOf(rs)[1..] == ProdsOf(rs[1..]);
    }
  }
}
