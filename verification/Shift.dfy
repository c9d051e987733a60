/**
 A stretch of a source, taken by itself: its lines, columns and located elements are those of the source, counted
 from where the stretch begins.
 */
module Shift {
  import opened Wrappers
  import opened Grammar
  import opened Syntax

  /** Where a source's stretch begins: its offset, line and column. */
  datatype Place = Place(at: nat, line: nat, col: nat)

  predicate Counted(p: Place) {
    p.line >= 1 && p.col >= 1
  }

  function PlaceOf(src: string, at: nat): (p: Place)
    requires at <= |src|
    ensures Counted(p)
  {
    LineFrom(src, at);
    Place(at, LineAt(src, at), ColAt(src, at))
  }

  /** A span of the stretch, in the source: only its first line begins past column 1. */
  function MovedSpan(sp: Span, p: Place): Span
    requires Counted(p)
  {
    Span(p.at + sp.s, p.at + sp.e, p.line - 1 + sp.r, if sp.r == 1 then p.col - 1 + sp.c else sp.c)
  }

  function MovedSp(sp: Option<Span>, p: Place): Option<Span>
    requires Counted(p)
  {
    if sp.None? then None else Some(MovedSpan(sp.value, p))
  }

  /** An element with every span in it, at any depth, moved. */
  function Moved(e: Element, p: Place): Element
    requires Counted(p)
  {
    match e
    case Term(l, sp) => Term(l, MovedSp(sp, p))
    case Regex(n, parts, sp) => Regex(n, parts, MovedSp(sp, p))
    case Ref(n, sp) => Ref(n, MovedSp(sp, p))
    case Group(alts, sp) => Group(MovedAlts(alts, p), MovedSp(sp, p))
    case Opt(i) => Opt(Moved(i, p))
    case Star(i) => Star(Moved(i, p))
    case Plus(i) => Plus(Moved(i, p))
  }

  function MovedSeq(es: seq<Element>, p: Place): seq<Element>
    requires Counted(p)
  {
    if es == [] then [] else [Moved(es[0], p)] + MovedSeq(es[1..], p)
  }

  function MovedAlts(alts: seq<Sequence>, p: Place): seq<Sequence>
    requires Counted(p)
  {
    if alts == [] then [] else [Sequence(MovedSeq(alts[0].els, p))] + MovedAlts(alts[1..], p)
  }

  // ---- lines and columns of a stretch

  lemma {:induction false} LineFrom(src: string, i: nat)
    requires i <= |src|
    ensures LineAt(src, i) >= 1 && ColAt(src, i) >= 1
  {
    if i > 0 { LineFrom(src, i - 1); }
  }

  /** A line is one more than the line feeds before it. */
  lemma {:induction false} LinesAre(src: string, i: nat)
    requires i <= |src|
    ensures LineAt(src, i) == 1 + multiset(src[..i])['\n']
  {
    if i > 0 {
      LinesAre(src, i - 1);
      assert src[..i] == src[..i - 1] + [src[i - 1]];
    }
  }

  /** A column is one more than the characters behind the last line feed. */
  lemma {:induction false} ColumnsAre(src: string, i: nat)
    requires i <= |src|
    ensures var k := i + 1 - ColAt(src, i);
            0 <= k <= i && (forall j | k <= j < i :: src[j] != '\n') && (k > 0 ==> src[k - 1] == '\n')
  {
    if i > 0 { ColumnsAre(src, i - 1); }
  }

  lemma {:induction false} LineMoves(src: string, lo: nat, hi: nat, i: nat)
    requires lo + i <= hi <= |src|
    ensures LineAt(src, lo + i) == LineAt(src, lo) - 1 + LineAt(src[lo..hi], i)
    ensures ColAt(src, lo + i)
         == if LineAt(src[lo..hi], i) == 1 then ColAt(src, lo) - 1 + ColAt(src[lo..hi], i) else ColAt(src[lo..hi], i)
  {
    LineFrom(src[lo..hi], i);
    if i > 0 {
      LineMoves(src, lo, hi, i - 1);
      LineFrom(src[lo..hi], i - 1);
      assert src[lo..hi][i - 1] == src[lo + i - 1];
    }
  }

  lemma SpanMoves(src: string, lo: nat, hi: nat, i: nat, n: nat)
    requires lo + i + n <= hi <= |src|
    ensures SpanAt(src, lo + i, n) == MovedSp(SpanAt(src[lo..hi], i, n), PlaceOf(src, lo))
  {
    LineMoves(src, lo, hi, i);
  }

  // ---- located elements of a stretch

  lemma {:induction false} AtomMoves(a: Atom, src: string, lo: nat, hi: nat, i: nat)
    requires lo <= hi <= |src| && lo + i + |AtomText(a)| <= hi
    ensures LocAtom(a, src, lo + i) == Moved(LocAtom(a, src[lo..hi], i), PlaceOf(src, lo))
    decreases a, 0
  {
    hide LineAt, ColAt, SpanAt, PlaceOf;
    SpanMoves(src, lo, hi, i, |AtomText(a)|);
    if a.Paren? { AltsMove(a.alts, src, lo, hi, i + 1); }
  }

  lemma {:induction false} WrapMoves(e: Element, posts: string, p: Place)
    requires Counted(p)
    ensures Moved(Wrap(e, posts), p) == Wrap(Moved(e, p), posts)
  {
    if posts != "" { WrapMoves(e, posts[..|posts| - 1], p); }
  }

  lemma {:induction false} ItemsMove(items: seq<Item>, src: string, lo: nat, hi: nat, i: nat)
    requires lo <= hi <= |src| && lo + i + |ItemsText(items)| <= hi
    ensures LocItems(items, src, lo + i) == MovedSeq(LocItems(items, src[lo..hi], i), PlaceOf(src, lo))
    decreases items
  {
    hide LocAtom, Wrap, Moved, GapText, AtomText, PlaceOf;
    if items != [] {
      var e, j := items[0].elem, i + |GapText(items[0])|;
      AtomMoves(e.atom, src, lo, hi, j);
      WrapMoves(LocAtom(e.atom, src[lo..hi], j), e.posts, PlaceOf(src, lo));
      ItemsMove(items[1..], src, lo, hi, j + |ElemText(e)|);
    }
  }

  lemma {:induction false} AltsMove(alts: seq<Seq>, src: string, lo: nat, hi: nat, i: nat)
    requires lo <= hi <= |src| && lo + i + |AltsText(alts)| <= hi
    ensures LocAlts(alts, src, lo + i) == MovedAlts(LocAlts(alts, src[lo..hi], i), PlaceOf(src, lo))
    decreases alts, 1
  {
    hide LocItems, MovedSeq, ItemsText, PlaceOf;
    if alts != [] {
      assert |ItemsText(alts[0].items)| <= |SeqText(alts[0])|;
      ItemsMove(alts[0].items, src, lo, hi, i);
      MoreMove(alts[1..], src, lo, hi, i + |SeqText(alts[0])|);
    }
  }

  lemma {:induction false} MoreMove(alts: seq<Seq>, src: string, lo: nat, hi: nat, i: nat)
    requires lo <= hi <= |src| && lo + i + |MoreText(alts)| <= hi
    ensures LocMore(alts, src, lo + i) == MovedAlts(LocMore(alts, src[lo..hi], i), PlaceOf(src, lo))
    decreases alts, 0
  {
    hide LocItems, MovedSeq, ItemsText, PlaceOf;
    if alts != [] {
      assert |ItemsText(alts[0].items)| <= |SeqText(alts[0])|;
      ItemsMove(alts[0].items, src, lo, hi, i + 1);
      MoreMove(alts[1..], src, lo, hi, i + 1 + |SeqText(alts[0])|);
    }
  }
}
