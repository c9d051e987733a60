/**
 The tokens of a file, in the order they stand: what is left of a layout without its gaps, its commas, the spelling
 of its definition signs and its terminators. They settle the grammar, so layout does not matter.
 */
module Tokens {
  import opened Wrappers
  import opened Syntax
  import opened Grammar
  import opened Reader
  import opened Layout

  /** A rule's head is its name with the definition sign behind it. */
  datatype Token = Leaf(atom: Atom) | LeftParen | RightParen | Bar | Postfix(op: char) | Head(name: string)

  function AtomToks(a: Atom): (t: seq<Token>)
    ensures t != [] && (t[0].Leaf? || t[0].LeftParen?)
  {
    if a.Paren? then [LeftParen] + (AltsToks(a.alts) + [RightParen]) else [Leaf(a)]
  }

  function PostToks(posts: string): seq<Token> {
    if posts == "" then [] else [Postfix(posts[0])] + PostToks(posts[1..])
  }

  function ItemsToks(items: seq<Item>): (t: seq<Token>)
    ensures items != [] ==> t != [] && (t[0].Leaf? || t[0].LeftParen?)
  {
    if items == [] then []
    else AtomToks(items[0].elem.atom) + (PostToks(items[0].elem.posts) + ItemsToks(items[1..]))
  }

  function AltsToks(alts: seq<Seq>): seq<Token> {
    if alts == [] then [] else ItemsToks(alts[0].items) + MoreToks(alts[1..])
  }

  function MoreToks(alts: seq<Seq>): seq<Token> {
    if alts == [] then [] else [Bar] + (ItemsToks(alts[0].items) + MoreToks(alts[1..]))
  }

  function ProdsToks(ps: seq<Prod>): seq<Token> {
    if ps == [] then [] else [Head(ps[0].name)] + (AltsToks(ps[0].alts) + ProdsToks(ps[1..]))
  }

  // ---- tokens are parsed in one way

  /** What may follow alternatives, and what may follow a concatenation. */
  predicate EndsAlts(t: seq<Token>) {
    t != [] ==> t[0].RightParen? || t[0].Head?
  }

  predicate EndsSeq(t: seq<Token>) {
    EndsAlts(t) || t[0].Bar?
  }

  lemma TokHead(x: Token, t: seq<Token>, r: seq<Token>)
    ensures ([x] + t) + r == [x] + (t + r) && ([x] + (t + r))[0] == x && ([x] + (t + r))[1..] == t + r
  {
  }

  lemma {:induction false} PostsOnce(p: string, q: string, r: seq<Token>, s: seq<Token>)
    requires PostToks(p) + r == PostToks(q) + s
    requires (r != [] ==> !r[0].Postfix?) && (s != [] ==> !s[0].Postfix?)
    ensures p == q && r == s
  {
    if p != "" { TokHead(Postfix(p[0]), PostToks(p[1..]), r); }
    if q != "" { TokHead(Postfix(q[0]), PostToks(q[1..]), s); }
    if p != "" && q != "" {
      PostsOnce(p[1..], q[1..], r, s);
      assert p == [p[0]] + p[1..] && q == [q[0]] + q[1..];
    } else {
      assert p == "" ==> PostToks(p) + r == r;
      assert q == "" ==> PostToks(q) + s == s;
    }
  }

  lemma {:induction false} AtomOnce(a: Atom, b: Atom, r: seq<Token>, s: seq<Token>)
    requires SpacedAtom(a) && SpacedAtom(b) && AtomToks(a) + r == AtomToks(b) + s
    ensures EraseAtom(a) == EraseAtom(b) && r == s
    decreases a, 0
  {
    hide AltsToks;
    if a.Paren? { ParenToks(a.alts, r); } else { TokHead(Leaf(a), [], r); }
    if b.Paren? { ParenToks(b.alts, s); } else { TokHead(Leaf(b), [], s); }
    assert (AtomToks(a) + r)[0] == (AtomToks(b) + s)[0];
    if a.Paren? && b.Paren? {
      AltsOnce(a.alts, b.alts, [RightParen] + r, [RightParen] + s);
      TokHead(RightParen, [], r);
      TokHead(RightParen, [], s);
      assert [] + r == r && [] + s == s;
    } else {
      assert [] + r == r && [] + s == s;
    }
  }

  lemma ParenToks(alts: seq<Seq>, r: seq<Token>)
    ensures var t := AtomToks(Paren(alts)) + r;
            t[0] == LeftParen && t[1..] == AltsToks(alts) + ([RightParen] + r)
  {
    TokHead(LeftParen, AltsToks(alts) + [RightParen], r);
  }

  lemma ItemsSplit(items: seq<Item>, r: seq<Token>)
    requires items != []
    ensures ItemsToks(items) + r
         == AtomToks(items[0].elem.atom) + (PostToks(items[0].elem.posts) + (ItemsToks(items[1..]) + r))
  {
  }

  /** Items are followed by no postfix operator. */
  lemma ItemsFollow(items: seq<Item>, r: seq<Token>)
    requires EndsSeq(r)
    ensures var t := ItemsToks(items) + r; t != [] ==> !t[0].Postfix?
  {
    if items == [] { assert ItemsToks(items) + r == r; }
  }

  lemma {:induction false} ItemsOnce(xs: seq<Item>, ys: seq<Item>, p: Option<Elem>, q: Option<Elem>,
                                     r: seq<Token>, s: seq<Token>)
    requires SpacedItems(xs, p) && SpacedItems(ys, q) && EndsSeq(r) && EndsSeq(s)
    requires ItemsToks(xs) + r == ItemsToks(ys) + s
    ensures EraseItems(xs) == EraseItems(ys) && r == s
    decreases xs
  {
    if xs == [] || ys == [] {
      assert xs == [] ==> ItemsToks(xs) + r == r;
      assert ys == [] ==> ItemsToks(ys) + s == s;
    } else {
      hide Clear, ItemsToks, PostToks, AtomToks, EraseAtom, SpacedAtom;
      var x, y := xs[0].elem, ys[0].elem;
      ItemsSplit(xs, r);
      ItemsSplit(ys, s);
      AtomOnce(x.atom, y.atom,
               PostToks(x.posts) + (ItemsToks(xs[1..]) + r), PostToks(y.posts) + (ItemsToks(ys[1..]) + s));
      ItemsFollow(xs[1..], r);
      ItemsFollow(ys[1..], s);
      PostsOnce(x.posts, y.posts, ItemsToks(xs[1..]) + r, ItemsToks(ys[1..]) + s);
      ItemsOnce(xs[1..], ys[1..], Some(x), Some(y), r, s);
    }
  }

  lemma AltsSplit(alts: seq<Seq>, r: seq<Token>)
    requires alts != []
    ensures AltsToks(alts) + r == ItemsToks(alts[0].items) + (MoreToks(alts[1..]) + r)
    ensures MoreToks(alts) + r == [Bar] + (ItemsToks(alts[0].items) + (MoreToks(alts[1..]) + r))
  {
    hide ItemsToks;
  }

  /** More alternatives are seen by their bar. */
  lemma MoreBegins(alts: seq<Seq>, r: seq<Token>)
    requires EndsAlts(r)
    ensures var t := MoreToks(alts) + r; EndsSeq(t) && (alts != [] <==> t != [] && t[0].Bar?)
    ensures alts == [] ==> MoreToks(alts) + r == r
  {
    hide ItemsToks;
    if alts == [] { assert MoreToks(alts) + r == r; }
  }

  lemma {:induction false} AltsOnce(xs: seq<Seq>, ys: seq<Seq>, r: seq<Token>, s: seq<Token>)
    requires SpacedAlts(xs) && SpacedAlts(ys) && EndsAlts(r) && EndsAlts(s) && AltsToks(xs) + r == AltsToks(ys) + s
    ensures EraseAlts(xs) == EraseAlts(ys) && r == s
    decreases xs, 1
  {
    hide SpacedItems, ItemsToks, MoreToks, AltsToks, EndsAlts, EndsSeq;
    AltsSplit(xs, r);
    AltsSplit(ys, s);
    MoreBegins(xs[1..], r);
    MoreBegins(ys[1..], s);
    ItemsOnce(xs[0].items, ys[0].items, None, None, MoreToks(xs[1..]) + r, MoreToks(ys[1..]) + s);
    MoreOnce(xs[1..], ys[1..], r, s);
  }

  lemma {:induction false} MoreOnce(xs: seq<Seq>, ys: seq<Seq>, r: seq<Token>, s: seq<Token>)
    requires SpacedMore(xs) && SpacedMore(ys) && EndsAlts(r) && EndsAlts(s) && MoreToks(xs) + r == MoreToks(ys) + s
    ensures EraseAlts(xs) == EraseAlts(ys) && r == s
    decreases xs, 0
  {
    hide SpacedItems, ItemsToks, MoreToks, EndsAlts, EndsSeq;
    MoreBegins(xs, r);
    MoreBegins(ys, s);
    if xs != [] && ys != [] {
      AltsSplit(xs, r);
      AltsSplit(ys, s);
      MoreBegins(xs[1..], r);
      MoreBegins(ys[1..], s);
      var t, u := MoreToks(xs[1..]) + r, MoreToks(ys[1..]) + s;
      TokHead(Bar, ItemsToks(xs[0].items), t);
      TokHead(Bar, ItemsToks(ys[0].items), u);
      ItemsOnce(xs[0].items, ys[0].items, None, None, t, u);
      MoreOnce(xs[1..], ys[1..], r, s);
    }
  }

  lemma {:induction false} ProdsOnce(ps: seq<Prod>, qs: seq<Prod>)
    requires (forall p | p in ps :: SpacedProd(p)) && (forall q | q in qs :: SpacedProd(q))
    requires ProdsToks(ps) == ProdsToks(qs)
    ensures EraseProds(ps) == EraseProds(qs)
  {
    hide AltsToks, SpacedAlts, EraseAlts;
    if ps != [] && qs != [] {
      assert SpacedProd(ps[0]) && SpacedProd(qs[0]);
      TokHead(Head(ps[0].name), AltsToks(ps[0].alts), ProdsToks(ps[1..]));
      TokHead(Head(qs[0].name), AltsToks(qs[0].alts), ProdsToks(qs[1..]));
      AltsOnce(ps[0].alts, qs[0].alts, ProdsToks(ps[1..]), ProdsToks(qs[1..]));
      ProdsOnce(ps[1..], qs[1..]);
    }
  }

  lemma {:induction false} ProdsAreSpaced(ps: seq<Prod>, tail: string)
    requires SpacedProds(ps, tail)
    ensures forall p | p in ps :: SpacedProd(p)
  {
    if ps != [] { ProdsAreSpaced(ps[1..], tail); }
  }

  /** Two texts that are read are read as one grammar if their tokens are the same, whatever their layout. */
  lemma LayoutDoesNotMatter(s: string, t: string)
    requires ReadFile(s).Got? && ReadFile(t).Got?
    requires ProdsToks(ReadFile(s).value.prods) == ProdsToks(ReadFile(t).value.prods)
    ensures EraseProds(ReadFile(s).value.prods) == EraseProds(ReadFile(t).value.prods)
  {
    hide ReadFile;
    var f, g := ReadFile(s).value, ReadFile(t).value;
    SpacedIsRead(f);
    SpacedIsRead(g);
    ProdsAreSpaced(f.prods, f.tail);
    ProdsAreSpaced(g.prods, g.tail);
    ProdsOnce(f.prods, g.prods);
  }

  /** So every layout of a file's tokens in which no two of them run together is read as its grammar. */
  lemma LaidOutAnew(f: File, g: File)
    requires SpacedFile(f) && SpacedFile(g) && ProdsToks(f.prods) == ProdsToks(g.prods)
    ensures ReadFile(FileText(f)).Got? && ReadFile(FileText(g)).Got?
    ensures EraseProds(ReadFile(FileText(f)).value.prods) == EraseProds(ReadFile(FileText(g)).value.prods)
  {
    hide ReadFile, ProdsToks, SpacedFile;
    SpacedIsRead(f);
    SpacedIsRead(g);
    LayoutDoesNotMatter(FileText(f), FileText(g));
  }
}
