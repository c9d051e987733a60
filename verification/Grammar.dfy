/** The grammar IR a front-end hands to the shared compiler. */
module Grammar {
  import opened Wrappers

  /** Where a node stands in the source: offsets from `s` up to `e`, and the line and column of `s`. */
  datatype Span = Span(s: nat, e: nat, r: nat, c: nat)

  /** One member or range of a character class, by its first and last code points. */
  datatype Part = Part(lo: nat, hi: nat)

  /** The seven kinds of element EBNF source can spell. A wrapper carries no span. */
  datatype Element =
    | Term(literal: string, sp: Option<Span>)
    | Regex(negated: bool, parts: seq<Part>, sp: Option<Span>)
    | Ref(name: string, sp: Option<Span>)
    | Group(alts: seq<Sequence>, sp: Option<Span>)
    | Opt(inner: Element)
    | Star(inner: Element)
    | Plus(inner: Element)

  /** A concatenation: one alternative of a production or a group. */
  datatype Sequence = Sequence(els: seq<Element>)

  datatype Production = Production(name: string, alts: seq<Sequence>, sp: Option<Span>)

  /** An element, a sequence, alternatives and productions without their spans. */
  function Bare(e: Element): Element {
    match e
    case Term(l, _) => Term(l, None)
    case Regex(n, p, _) => Regex(n, p, None)
    case Ref(n, _) => Ref(n, None)
    case Group(alts, _) => Group(BareAlts(alts), None)
    case Opt(i) => Opt(Bare(i))
    case Star(i) => Star(Bare(i))
    case Plus(i) => Plus(Bare(i))
  }

  function BareSeq(es: seq<Element>): (r: seq<Element>)
    ensures |r| == |es|
  {
    if es == [] then [] else [Bare(es[0])] + BareSeq(es[1..])
  }

  function BareAlts(alts: seq<Sequence>): (r: seq<Sequence>)
    ensures |r| == |alts|
  {
    if alts == [] then [] else [Sequence(BareSeq(alts[0].els))] + BareAlts(alts[1..])
  }

  function BareAll(prods: seq<Production>): (r: seq<Production>)
    ensures |r| == |prods|
  {
    if prods == [] then []
    else [Production(prods[0].name, BareAlts(prods[0].alts), None)] + BareAll(prods[1..])
  }

  // ---- how deep elements nest

  function Larger(a: nat, b: nat): nat {
    if a < b then b else a
  }

  /** An element by itself is at level 1; a group's elements and a postfix's one are a level deeper. */
  function Depth(e: Element): (d: nat)
    ensures d >= 1
  {
    match e
    case Group(alts, _) => 1 + DepthAlts(alts)
    case Opt(i) => 1 + Depth(i)
    case Star(i) => 1 + Depth(i)
    case Plus(i) => 1 + Depth(i)
    case _ => 1
  }

  function DepthSeq(es: seq<Element>): nat {
    if es == [] then 0 else Larger(Depth(es[0]), DepthSeq(es[1..]))
  }

  function DepthAlts(alts: seq<Sequence>): nat {
    if alts == [] then 0 else Larger(DepthSeq(alts[0].els), DepthAlts(alts[1..]))
  }

  lemma {:induction false} DepthJoined(a: seq<Element>, b: seq<Element>)
    ensures DepthSeq(a + b) == Larger(DepthSeq(a), DepthSeq(b))
  {
    if a == [] {
      assert a + b == b;
    } else {
      assert (a + b)[1..] == a[1..] + b;
      DepthJoined(a[1..], b);
    }
  }

  lemma {:induction false} DepthAltsJoined(a: seq<Sequence>, b: seq<Sequence>)
    ensures DepthAlts(a + b) == Larger(DepthAlts(a), DepthAlts(b))
  {
    if a == [] {
      assert a + b == b;
    } else {
      assert (a + b)[1..] == a[1..] + b;
      DepthAltsJoined(a[1..], b);
    }
  }

  lemma DepthOne(e: Element)
    ensures DepthSeq([e]) == Depth(e) && DepthAlts([Sequence([e])]) == Depth(e)
  {
    assert DepthSeq([]) == 0;
  }
}
