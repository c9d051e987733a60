/**
 Every span is exactly its node's text: spans of siblings are in order and apart, those of a
 group's elements lie between its parentheses, and the text of a span, read by itself, gives
 the element back with its spans moved by where the text begins.
 */
module Spans {
  import opened Wrappers
  import opened Text
  import opened Grammar
  import opened Syntax
  import opened Reader
  import opened Legal
  import opened RoundTrip
  import opened Layout
  import opened Shift

  /** The atom inside an element's postfix operators, which carries its span. */
  function Core(e: Element): Element {
    if e.Opt? || e.Star? || e.Plus? then Core(e.inner) else e
  }

  function SpanOf(e: Element): Option<Span> {
    match Core(e)
    case Term(_, sp) => sp
    case Regex(_, _, sp) => sp
    case Ref(_, sp) => sp
    case Group(_, sp) => sp
    case _ => None
  }

  /** Whether `e` is an atom, every span in it located, whose own text is a stretch of the source. */
  ghost predicate Spells(e: Element, src: string, s: nat, end: nat)
    requires s <= end <= |src|
  {
    exists a :: SpacedAtom(a) && AtomText(a) == src[s..end] && LocAtom(a, src, s) == e
  }

  /** Whether a span lies in the source, names its own line and column, and its text is all of `e`. */
  ghost predicate Exact(sp: Span, e: Element, src: string) {
    && sp.s < sp.e <= |src|
    && sp.r == LineAt(src, sp.s) && sp.c == ColAt(src, sp.s)
    && Spells(e, src, sp.s, sp.e)
  }

  /** Where a span begins. */
  function Start(sp: Span): Place {
    Place(sp.s, sp.r, sp.c)
  }

  /**
   The text of an exact span, read by itself, gives the element back, every span in it moved by where the text
   begins; nothing is skipped first.
   */
  lemma ExactReads(sp: Span, e: Element, src: string)
    requires Exact(sp, e, src)
    ensures Counted(Start(sp))
    ensures var t := src[sp.s..sp.e];
            var r := ReadAtom(t);
            r.Got? && r.rest == "" && AtomText(r.value) == t && Moved(LocAtom(r.value, t, 0), Start(sp)) == e
    ensures Skip(src[sp.s..sp.e]) == Got("", src[sp.s..sp.e])
  {
    hide Moved, LocAtom, ReadAtom, SpacedAtom, LegalAtom, AtomText, Skip, GapStarts, LineAt, ColAt;
    var t := src[sp.s..sp.e];
    var a :| SpacedAtom(a) && AtomText(a) == t && LocAtom(a, src, sp.s) == e;
    AtomLegal(a, "");
    ReadsAtom(a, "");
    Ends(t);
    ElemNoGap(Elem(a, ""), "");
    SkipUnfolds(t);
    LineFrom(src, sp.s);
    AtomMoves(a, src, sp.s, sp.e, 0);
  }

  /** Whether every span in an element is exact and stands between two offsets. */
  ghost predicate Within(e: Element, src: string, lo: nat, hi: nat) {
    if e.Opt? || e.Star? || e.Plus? then Within(e.inner, src, lo, hi)
    else
      && SpanOf(e).Some?
      && var sp := SpanOf(e).value;
      && lo <= sp.s && sp.e <= hi && Exact(sp, e, src)
      && (e.Group? ==> AltsWithin(e.alts, src, sp.s + 1, sp.e - 1))
  }

  ghost predicate SeqWithin(es: seq<Element>, src: string, lo: nat, hi: nat) {
    es != [] ==>
      && Within(es[0], src, lo, hi) && SpanOf(es[0]).Some?
      && SeqWithin(es[1..], src, SpanOf(es[0]).value.e, hi)
  }

  /** The alternatives one after another, each in a stretch of its own. */
  ghost predicate AltsWithin(alts: seq<Sequence>, src: string, lo: int, hi: int) {
    alts != [] ==> exists m: nat ::
      0 <= lo <= m <= hi && SeqWithin(alts[0].els, src, lo, m) && AltsWithin(alts[1..], src, m, hi)
  }

  lemma {:induction false} WrapCore(e: Element, posts: string)
    ensures Core(Wrap(e, posts)) == Core(e)
    ensures Bare(Wrap(e, posts)) == Wrap(Bare(e), posts)
  {
    if posts != "" { WrapCore(e, posts[..|posts| - 1]); }
  }

  lemma {:induction false} WrapWithin(e: Element, posts: string, src: string, lo: nat, hi: nat)
    requires Within(e, src, lo, hi)
    ensures Within(Wrap(e, posts), src, lo, hi)
  {
    if posts != "" { WrapWithin(e, posts[..|posts| - 1], src, lo, hi); }
  }

  // ---- locating and erasing agree

  lemma {:induction false} LocatedAtom(a: Atom, src: string, at: nat)
    requires at + |AtomText(a)| <= |src|
    ensures Bare(LocAtom(a, src, at)) == EraseAtom(a)
    ensures !LocAtom(a, src, at).Opt? && !LocAtom(a, src, at).Star? && !LocAtom(a, src, at).Plus?
    decreases a, 0
  {
    if a.Paren? { LocatedAlts(a.alts, src, at + 1); }
  }

  lemma {:induction false} LocatedItems(items: seq<Item>, src: string, at: nat)
    requires at + |ItemsText(items)| <= |src|
    ensures BareSeq(LocItems(items, src, at)) == EraseItems(items)
    decreases items
  {
    hide LocAtom, EraseAtom, Wrap, Bare, Core, GapText, AtomText;
    if items != [] {
      var i := at + |GapText(items[0])|;
      LocatedAtom(items[0].elem.atom, src, i);
      WrapCore(LocAtom(items[0].elem.atom, src, i), items[0].elem.posts);
      LocatedItems(items[1..], src, i + |ElemText(items[0].elem)|);
    }
  }

  lemma {:induction false} LocatedAlts(alts: seq<Seq>, src: string, at: nat)
    requires at + |AltsText(alts)| <= |src|
    ensures BareAlts(LocAlts(alts, src, at)) == EraseAlts(alts)
    decreases alts, 1
  {
    if alts != [] {
      assert |ItemsText(alts[0].items)| <= |SeqText(alts[0])|;
      LocatedItems(alts[0].items, src, at);
      LocatedMore(alts[1..], src, at + |SeqText(alts[0])|);
    }
  }

  lemma {:induction false} LocatedMore(alts: seq<Seq>, src: string, at: nat)
    requires at + |MoreText(alts)| <= |src|
    ensures BareAlts(LocMore(alts, src, at)) == EraseAlts(alts)
    decreases alts, 0
  {
    if alts != [] {
      assert |ItemsText(alts[0].items)| <= |SeqText(alts[0])|;
      LocatedItems(alts[0].items, src, at + 1);
      LocatedMore(alts[1..], src, at + 1 + |SeqText(alts[0])|);
    }
  }

  lemma {:induction false} LocatedProds(ps: seq<Prod>, src: string, at: nat)
    requires at + |ProdsText(ps)| <= |src|
    ensures BareAll(LocProds(ps, src, at)) == EraseProds(ps)
  {
    hide LocAlts, EraseAlts, BareAlts, AltsText;
    if ps != [] {
      var body := at + |ps[0].lead| + |ps[0].name| + |ps[0].mid| + |DefText(ps[0].colons)|;
      LocatedAlts(ps[0].alts, src, body);
      LocatedProds(ps[1..], src, at + |ProdText(ps[0])|);
    }
  }

  // ---- spans of what stands in the source

  /** Text standing at an offset, split where its parts meet. */
  lemma StandsSplit(a: string, b: string, src: string, at: nat, mid: nat)
    requires Stands(a + b, src, at) && mid == at + |a|
    ensures Stands(a, src, at) && Stands(b, src, mid)
  {
    var t := src[at..at + |a + b|];
    assert t[..|a|] == a && t[|a|..] == b;
    assert src[at..at + |a|] == t[..|a|] && src[at + |a|..at + |a + b|] == t[|a|..];
  }

  lemma StandsFits(t: string, src: string, at: nat)
    requires Stands(t, src, at)
    ensures at + |t| <= |src|
  {
  }

  lemma AtomExact(a: Atom, src: string, at: nat, rest: string)
    requires Stands(AtomText(a), src, at) && LegalAtom(a, rest)
    ensures Exact(SpanAt(src, at, |AtomText(a)|).value, LocAtom(a, src, at), src)
  {
    AtomSpaced(a, rest);
    AtomOpening(a);
  }

  lemma ParenStands(t: string, src: string, at: nat)
    requires Stands("(" + t + ")", src, at)
    ensures Stands(t, src, at + 1)
  {
    StandsSplit("(" + t, ")", src, at, at + 1 + |t|);
    StandsSplit("(", t, src, at, at + 1);
  }

  lemma {:induction false} AtomWithin(a: Atom, src: string, at: nat, rest: string)
    requires Stands(AtomText(a), src, at) && LegalAtom(a, rest)
    ensures Within(LocAtom(a, src, at), src, at, at + |AtomText(a)|)
    ensures SpanOf(LocAtom(a, src, at)) == SpanAt(src, at, |AtomText(a)|)
    decreases a, 0
  {
    AtomExact(a, src, at, rest);
    if a.Paren? {
      ParenStands(AltsText(a.alts), src, at);
      AltsAreWithin(a.alts, src, at + 1, ")" + rest);
    }
  }

  lemma SeqCons(e: Element, es: seq<Element>, src: string, lo: nat, hi: nat)
    requires Within(e, src, lo, hi) && SpanOf(e).Some? && SeqWithin(es, src, SpanOf(e).value.e, hi)
    ensures SeqWithin([e] + es, src, lo, hi)
  {
    assert ([e] + es)[1..] == es;
  }

  lemma {:induction false} ElemWithin(e: Elem, src: string, at: nat, rest: string)
    requires Stands(ElemText(e), src, at) && LegalElem(e, rest)
    ensures var x := LocElem(e, src, at);
            Within(x, src, at, at + |ElemText(e)|) && SpanOf(x) == SpanAt(src, at, |AtomText(e.atom)|)
    decreases e, 1
  {
    StandsSplit(AtomText(e.atom), e.posts, src, at, at + |AtomText(e.atom)|);
    AtomWithin(e.atom, src, at, e.posts + rest);
    var x := LocAtom(e.atom, src, at);
    AtomInElem(x, e.posts, src, at, at + |AtomText(e.atom)|, at + |ElemText(e)|);
  }

  lemma AtomInElem(x: Element, posts: string, src: string, lo: nat, mid: nat, hi: nat)
    requires Within(x, src, lo, mid) && mid <= hi
    ensures Within(Wrap(x, posts), src, lo, hi) && SpanOf(Wrap(x, posts)) == SpanOf(x)
  {
    Wider(x, src, lo, mid, lo, hi);
    WrapWithin(x, posts, src, lo, hi);
    WrapCore(x, posts);
  }

  lemma ItemStands(i: Item, more: seq<Item>, src: string, at: nat)
    requires Stands(GapText(i) + ElemText(i.elem) + ItemsText(more), src, at)
    ensures var j := at + |GapText(i)|;
            Stands(ElemText(i.elem), src, j) && Stands(ItemsText(more), src, j + |ElemText(i.elem)|)
  {
    var j := at + |GapText(i)|;
    var k := j + |ElemText(i.elem)|;
    StandsSplit(GapText(i) + ElemText(i.elem), ItemsText(more), src, at, k);
    StandsSplit(GapText(i), ElemText(i.elem), src, at, j);
  }

  lemma {:induction false} ItemsWithin(items: seq<Item>, src: string, at: nat, rest: string, hi: nat)
    requires Stands(ItemsText(items), src, at) && LegalItems(items, rest)
    requires at + |ItemsText(items)| <= hi
    ensures SeqWithin(LocItems(items, src, at), src, at, hi)
    decreases items
  {
    hide SeqWithin, Within, LocItems, LocElem, LegalElem, AltsText, LegalAtom, SeqEnds, GapStarts, Exact, SpanOf;
    hide IsGap, GapText, AtomText, Stands;
    StandsFits(ItemsText(items), src, at);
    LocItemsCons(items, src, at, hi);
    if items != [] {
      var i, e, more := at + |GapText(items[0])|, items[0].elem, items[1..];
      var k := i + |ElemText(e)|;
      ItemStands(items[0], more, src, at);
      ItemsWithin(more, src, k, rest, hi);
      ItemWithin(items, rest, src, i);
      SeqStep(LocElem(e, src, i), LocItems(more, src, k), src, at, i, i + |AtomText(e.atom)|, k, hi);
    }
  }

  lemma LocItemsCons(items: seq<Item>, src: string, at: nat, hi: nat)
    requires at + |ItemsText(items)| <= |src|
    ensures LocItems(items, src, at) ==
            if items == [] then []
            else
              var i := at + |GapText(items[0])|;
              [LocElem(items[0].elem, src, i)] + LocItems(items[1..], src, i + |ElemText(items[0].elem)|)
    ensures SeqWithin([], src, at, hi)
  {
  }

  lemma ItemWithin(items: seq<Item>, rest: string, src: string, i: nat)
    requires items != [] && LegalItems(items, rest) && Stands(ElemText(items[0].elem), src, i)
    ensures var e := items[0].elem;
            var x := LocElem(e, src, i);
            Within(x, src, i, i + |ElemText(e)|) && SpanOf(x) == SpanAt(src, i, |AtomText(e.atom)|)
    decreases items[0], 2
  {
    ElemWithin(items[0].elem, src, i, ItemsText(items[1..]) + rest);
  }

  lemma SeqStep(x: Element, xs: seq<Element>, src: string, at: nat, i: nat, j: nat, k: nat, hi: nat)
    requires at <= i <= j <= k <= hi
    requires Within(x, src, i, k) && SpanOf(x).Some? && SpanOf(x).value.e == j && SeqWithin(xs, src, k, hi)
    ensures SeqWithin([x] + xs, src, at, hi)
  {
    Wider(x, src, i, k, at, hi);
    SeqWider(xs, src, k, hi, j, hi);
    SeqCons(x, xs, src, at, hi);
  }

  lemma {:induction false} Wider(e: Element, src: string, lo: nat, hi: nat, lo': nat, hi': nat)
    requires Within(e, src, lo, hi) && lo' <= lo && hi <= hi'
    ensures Within(e, src, lo', hi')
  {
    if e.Opt? || e.Star? || e.Plus? { Wider(e.inner, src, lo, hi, lo', hi'); }
  }

  lemma {:induction false} SeqWider(es: seq<Element>, src: string, lo: nat, hi: nat, lo': nat, hi': nat)
    requires SeqWithin(es, src, lo, hi) && lo' <= lo && hi <= hi'
    ensures SeqWithin(es, src, lo', hi')
  {
    if es != [] {
      Wider(es[0], src, lo, hi, lo', hi');
      var e := SpanOf(es[0]).value.e;
      SeqWider(es[1..], src, e, hi, e, hi');
    }
  }

  lemma AltsCons(q: Sequence, more: seq<Sequence>, src: string, lo: nat, m: nat, hi: nat)
    requires lo <= m <= hi && SeqWithin(q.els, src, lo, m) && AltsWithin(more, src, m, hi)
    ensures AltsWithin([q] + more, src, lo, hi)
  {
    assert ([q] + more)[1..] == more;
  }

  lemma {:induction false} AltsAreWithin(alts: seq<Seq>, src: string, at: nat, rest: string)
    requires Stands(AltsText(alts), src, at) && LegalAlts(alts, rest)
    ensures AltsWithin(LocAlts(alts, src, at), src, at, at + |AltsText(alts)|)
    decreases alts, 1
  {
    hide SeqWithin, AltsWithin, LocItems, LocMore, SeqText, MoreText, LegalSeq, LegalMore, Stands;
    var q, more, m := alts[0], alts[1..], at + |SeqText(alts[0])|;
    StandsSplit(SeqText(q), MoreText(more), src, at, m);
    SeqFits(q, src, at);
    FirstWithin(q, src, at, MoreText(more) + rest);
    MoreWithin(more, src, m, rest);
    AltsCons(Sequence(LocItems(q.items, src, at)), LocMore(more, src, m), src, at, m, at + |AltsText(alts)|);
  }

  lemma SeqFits(q: Seq, src: string, at: nat)
    requires Stands(SeqText(q), src, at)
    ensures at + |ItemsText(q.items)| <= at + |SeqText(q)| <= |src|
  {
    hide ItemsText;
  }

  lemma {:induction false} FirstWithin(q: Seq, src: string, at: nat, rest: string)
    requires Stands(SeqText(q), src, at) && LegalSeq(q, rest)
    ensures at + |ItemsText(q.items)| <= |src|
    ensures SeqWithin(LocItems(q.items, src, at), src, at, at + |SeqText(q)|)
    decreases q
  {
    hide SeqWithin, LocItems, ItemsText, LegalItems, IsGap, GapStarts, SeqEnds;
    StandsSplit(ItemsText(q.items), q.post, src, at, at + |ItemsText(q.items)|);
    ItemsWithin(q.items, src, at, q.post + rest, at + |SeqText(q)|);
  }

  lemma MoreParts(alts: seq<Seq>, src: string, at: nat, rest: string)
    requires alts != [] && at + |MoreText(alts)| <= |src| && LegalMore(alts, rest)
    ensures MoreText(alts) == "|" + SeqText(alts[0]) + MoreText(alts[1..])
    ensures |ItemsText(alts[0].items)| <= |SeqText(alts[0])|
    ensures LocMore(alts, src, at)
         == [Sequence(LocItems(alts[0].items, src, at + 1))] + LocMore(alts[1..], src, at + 1 + |SeqText(alts[0])|)
    ensures LegalSeq(alts[0], MoreText(alts[1..]) + rest) && LegalMore(alts[1..], rest)
  {
    hide LocItems, ItemsText, LegalSeq;
  }

  lemma NoMoreWithin(src: string, at: nat)
    requires at <= |src|
    ensures MoreText([]) == "" && AltsWithin(LocMore([], src, at), src, at, at)
  {
  }

  lemma {:induction false} MoreWithin(alts: seq<Seq>, src: string, at: nat, rest: string)
    requires Stands(MoreText(alts), src, at) && LegalMore(alts, rest)
    ensures at + |MoreText(alts)| <= |src|
    ensures AltsWithin(LocMore(alts, src, at), src, at, at + |MoreText(alts)|)
    decreases alts, 0
  {
    hide SeqWithin, AltsWithin, LocItems, LocMore, ItemsText, MoreText, SeqText, LegalMore, LegalSeq, Stands;
    StandsFits(MoreText(alts), src, at);
    if alts == [] {
      NoMoreWithin(src, at);
    } else {
      var q, more, m := alts[0], alts[1..], at + 1 + |SeqText(alts[0])|;
      MoreParts(alts, src, at, rest);
      StandsSplit("|" + SeqText(q), MoreText(more), src, at, m);
      StandsSplit("|", SeqText(q), src, at, at + 1);
      SeqFits(q, src, at + 1);
      FirstWithin(q, src, at + 1, MoreText(more) + rest);
      SeqWider(LocItems(q.items, src, at + 1), src, at + 1, m, at, m);
      MoreWithin(more, src, m, rest);
      AltsCons(Sequence(LocItems(q.items, src, at + 1)), LocMore(more, src, m), src, at, m, at + |MoreText(alts)|);
    }
  }

  /** Whether a production's span is its name, and its elements stand behind it. */
  ghost predicate ProdWithin(p: Production, src: string, lo: nat, hi: nat) {
    && p.sp.Some? && lo <= p.sp.value.s < p.sp.value.e <= hi <= |src|
    && var sp := p.sp.value;
    && src[sp.s..sp.e] == p.name && sp.r == LineAt(src, sp.s) && sp.c == ColAt(src, sp.s)
    && AltsWithin(p.alts, src, sp.e, hi)
  }

  /** The productions one after another, each before the next one's name. */
  ghost predicate ProdsWithin(ps: seq<Production>, src: string, lo: nat, hi: nat) {
    ps != [] ==>
      && (|ps| > 1 ==> ps[1].sp.Some?)
      && ProdWithin(ps[0], src, lo, if |ps| > 1 then ps[1].sp.value.s else hi)
      && ProdsWithin(ps[1..], src, ps[0].sp.value.e, hi)
  }

  lemma {:induction false} AltsWider(alts: seq<Sequence>, src: string, lo: nat, hi: nat, lo': nat, hi': nat)
    requires AltsWithin(alts, src, lo, hi) && lo' <= lo && hi <= hi'
    ensures AltsWithin(alts, src, lo', hi')
  {
    if alts != [] {
      var m: nat :| 0 <= lo <= m <= hi && SeqWithin(alts[0].els, src, lo, m) && AltsWithin(alts[1..], src, m, hi);
      SeqWider(alts[0].els, src, lo, m, lo', m);
      AltsWider(alts[1..], src, m, hi, m, hi');
    }
  }

  lemma ProdStands(p: Prod, src: string, at: nat)
    requires Stands(ProdText(p), src, at)
    ensures var i := at + |p.lead|;
            && Stands(p.name, src, i)
            && Stands(AltsText(p.alts), src, i + |p.name| + |p.mid| + |DefText(p.colons)|)
  {
    var i := at + |p.lead|;
    var j := i + |p.name|;
    var k := j + |p.mid|;
    var d, t := DefText(p.colons), AltsText(p.alts);
    PartsStand(p.lead, p.name, p.mid, d, t, EndText(p.semi), src, at, i, j, k, k + |d|);
  }

  lemma PartsStand(a: string, b: string, c: string, d: string, e: string, f: string,
                   src: string, at: nat, i: nat, j: nat, k: nat, l: nat)
    requires Stands(a + b + c + d + e + f, src, at)
    requires i == at + |a| && j == i + |b| && k == j + |c| && l == k + |d|
    ensures Stands(b, src, i) && Stands(e, src, l)
  {
    StandsSplit(a + b + c + d + e, f, src, at, l + |e|);
    StandsSplit(a + b + c + d, e, src, at, l);
    StandsSplit(a + b + c, d, src, at, k);
    StandsSplit(a + b, c, src, at, j);
    StandsSplit(a, b, src, at, i);
  }

  lemma ProdIsWithin(p: Prod, src: string, at: nat, rest: string, lo: nat, hi: nat)
    requires Stands(ProdText(p), src, at) && LegalProd(p, rest)
    requires lo <= at && at + |ProdText(p)| <= hi <= |src|
    ensures ProdWithin(LocProd(p, src, at), src, lo, hi)
  {
    hide LocAlts, AltsText, AltsWithin, LegalAlts, LocProd, ProdWithin, Stands, LegalProd, ProdText, DefText;
    var i := at + |p.lead|;
    var body := i + |p.name| + |p.mid| + |DefText(p.colons)|;
    ProdParts(p, rest);
    ProdStands(p, src, at);
    AltsAreWithin(p.alts, src, body, EndText(p.semi) + rest);
    AltsWider(LocAlts(p.alts, src, body), src, body, body + |AltsText(p.alts)|, i + |p.name|, hi);
    ProdFits(p, src, at, i, body, lo, hi);
  }

  lemma ProdParts(p: Prod, rest: string)
    requires LegalProd(p, rest)
    ensures p.name != "" && LegalAlts(p.alts, EndText(p.semi) + rest)
    ensures |p.lead| + |p.name| + |p.mid| + |DefText(p.colons)| + |AltsText(p.alts)| <= |ProdText(p)|
  {
    hide LegalAlts, AltsText;
  }

  lemma ProdFits(p: Prod, src: string, at: nat, i: nat, body: nat, lo: nat, hi: nat)
    requires lo <= at && at + |ProdText(p)| <= hi <= |src|
    requires i == at + |p.lead| && body == i + |p.name| + |p.mid| + |DefText(p.colons)|
    requires p.name != "" && Stands(p.name, src, i)
    requires AltsWithin(LocAlts(p.alts, src, body), src, i + |p.name|, hi)
    ensures ProdWithin(LocProd(p, src, at), src, lo, hi)
  {
    hide LocAlts, AltsText, AltsWithin, LineAt, ColAt;
  }

  lemma {:induction false} ProdsAreWithin(ps: seq<Prod>, src: string, at: nat, rest: string, lo: nat, hi: nat)
    requires Stands(ProdsText(ps), src, at) && LegalProds(ps, rest)
    requires lo <= at && at + |ProdsText(ps)| <= hi <= |src|
    ensures ProdsWithin(LocProds(ps, src, at), src, lo, hi)
  {
    if ps != [] {
      var p, more := ps[0], ps[1..];
      var m := at + |ProdText(p)|;
      StandsSplit(ProdText(p), ProdsText(more), src, at, m);
      forall end: nat | m <= end <= |src| ensures ProdWithin(LocProd(p, src, at), src, lo, end) {
        ProdIsWithin(p, src, at, ProdsText(more) + rest, lo, end);
      }
      ProdsAreWithin(more, src, m, rest, at + |p.lead| + |p.name|, hi);
      ProdsStep(ps, src, at, m, lo, hi);
    }
  }

  lemma ProdsStep(ps: seq<Prod>, src: string, at: nat, m: nat, lo: nat, hi: nat)
    requires ps != [] && m == at + |ProdText(ps[0])| && at + |ProdsText(ps)| <= hi <= |src|
    requires forall end: nat | m <= end <= |src| :: ProdWithin(LocProd(ps[0], src, at), src, lo, end)
    requires ProdsWithin(LocProds(ps[1..], src, m), src, at + |ps[0].lead| + |ps[0].name|, hi)
    ensures ProdsWithin(LocProds(ps, src, at), src, lo, hi)
  {
    hide LocProds, ProdText, LocProd, ProdWithin;
    var p, more := ps[0], ps[1..];
    var x, xs := LocProd(p, src, at), LocProds(more, src, m);
    if more != [] { NextName(more, src, m); }
    var end := if more == [] then hi else m + |more[0].lead|;
    LocProdsCons(ps, src, at);
    ProdsCons(LocProds(ps, src, at), x, xs, src, lo, end, at + |p.lead| + |p.name|, hi);
  }

  lemma LocProdsCons(ps: seq<Prod>, src: string, at: nat)
    requires ps != [] && at + |ProdsText(ps)| <= |src|
    ensures var r := LocProds(ps, src, at);
            r[0] == LocProd(ps[0], src, at) && r[1..] == LocProds(ps[1..], src, at + |ProdText(ps[0])|)
    ensures var sp := LocProd(ps[0], src, at).sp; sp.Some? && sp.value.e == at + |ps[0].lead| + |ps[0].name|
  {
  }

  lemma NextName(ps: seq<Prod>, src: string, at: nat)
    requires ps != [] && at + |ProdsText(ps)| <= |src|
    ensures var sp := LocProds(ps, src, at)[0].sp;
            sp.Some? && sp.value.s == at + |ps[0].lead| && sp.value.s <= at + |ProdsText(ps)|
  {
    assert |ps[0].lead| <= |ProdText(ps[0])|;
  }

  lemma ProdsCons(ps: seq<Production>, x: Production, xs: seq<Production>,
                  src: string, lo: nat, end: nat, lo': nat, hi: nat)
    requires ps != [] && ps[0] == x && ps[1..] == xs
    requires if xs == [] then end == hi else xs[0].sp.Some? && xs[0].sp.value.s == end
    requires ProdWithin(x, src, lo, end) && lo' == x.sp.value.e
    requires ProdsWithin(xs, src, lo', hi)
    ensures ProdsWithin(ps, src, lo, hi)
  {
  }

  /** Every span of a source that is read is exactly its node's text, in its place. */
  lemma SpansAreExact(src: string)
    requires ReadFile(src).Got?
    ensures ProdsWithin(LocProds(ReadFile(src).value.prods, src, 0), src, 0, |src|)
  {
    var f := ReadFile(src).value;
    FileIsLegal(src);
    StandsSplit(ProdsText(f.prods), f.tail, src, 0, |ProdsText(f.prods)|);
    ProdsAreWithin(f.prods, src, 0, f.tail, 0, |src|);
  }
}
