/**
 The ranges of a class, read from its pattern, and the check that a token set laid over a class matches
 the characters the class matches.
 */
module TokenSets {
  import opened Wrappers
  import opened Text
  import opened Strings
  import Grammar
  import opened CharClass
  import opened ClassWriter
  import opened Ranges

  /** A range by the digits of its ends. */
  datatype HexSpan = HexSpan(lo: string, hi: string)

  /** The digits of a piece, without the dash of a range's low end. */
  function PieceHex(p: string): string {
    PieceDigits(if HasSuffix("-", p) then Before("-", p) else p)
  }

  /** The ranges of a pattern's pieces; `after` tells whether the piece before is a low end. */
  function HexSpans(pieces: seq<string>, after: bool): seq<HexSpan> {
    if pieces == [] then []
    else
      var low := HasSuffix("-", pieces[0]);
      var rest := HexSpans(pieces[1..], low);
      var lo := PieceHex(pieces[0]);
      if after then rest
      else [HexSpan(lo, if low && |pieces| > 1 then PieceHex(pieces[1]) else lo)] + rest
  }

  function ClassHexSpans(pat: string): seq<HexSpan> {
    if pat == "[\\s\\S]" then [HexSpan("0", "10FFFF")]
    else
      var inner := Before("]", After("[", pat));
      HexSpans(Split("\\u", if HasPrefix("^", inner) then After("^", inner) else inner)[1..], false)
  }

  function CpText(h: string): Cp {
    if |h| <= 6 && All(HexDigits, h) then CpOf(h) else FIRST
  }

  function CpSpans(hs: seq<HexSpan>): (r: seq<Span>)
    ensures |r| == |hs|
    ensures forall i | 0 <= i < |hs| :: r[i] == Span(CpText(hs[i].lo), CpText(hs[i].hi))
  {
    if hs == [] then [] else [Span(CpText(hs[0].lo), CpText(hs[0].hi))] + CpSpans(hs[1..])
  }

  function ClassSpans(pat: string): seq<Span> {
    CpSpans(ClassHexSpans(pat))
  }

  /** The ranges of the classes of a set's tokens, one after another. */
  function MemberSpans(pats: seq<string>): seq<Span> {
    if pats == [] then [] else ClassSpans(pats[0]) + MemberSpans(pats[1..])
  }

  /** Whether tokens laid over a class are the class. */
  predicate CheckSet(pat: string, pats: seq<string>) {
    var own, spans := ClassSpans(pat), MemberSpans(pats);
    if HasPrefix("[^", pat) then SpansTile(own, spans) else SpansSame(Merged(own), Merged(spans))
  }

  // ---- what a pattern's ranges are

  function Digits(r: Range): HexSpan {
    HexSpan(r.lo.digits, if r.hi.None? then r.lo.digits else r.hi.value.digits)
  }

  function AllDigits(rs: seq<Range>): (hs: seq<HexSpan>)
    ensures |hs| == |rs|
    ensures forall i | 0 <= i < |rs| :: hs[i] == Digits(rs[i])
  {
    if rs == [] then [] else [Digits(rs[0])] + AllDigits(rs[1..])
  }

  lemma PieceIsDigits(c: Code)
    requires ValidCode(c)
    ensures PieceHex(CodeText(c)) == c.digits && !HasSuffix("-", CodeText(c))
    ensures PieceHex(CodeText(c) + "-") == c.digits && HasSuffix("-", CodeText(c) + "-")
  {
    var t := CodeText(c);
    CodePieceDigits(c);
    BeforeLast('-', t);
    HasSuffixIff('-', t);
  }

  lemma CodePieceDigits(c: Code)
    requires ValidCode(c)
    ensures PieceDigits(CodeText(c)) == c.digits
  {
    var t := CodeText(c);
    if c.braced {
      AfterFirst("{", c.digits + "}");
      BeforeLast('}', c.digits);
      assert "{" + (c.digits + "}") == t;
    } else {
      HasPrefixIff("{", t);
      assert t[..1] == [t[0]];
    }
  }

  lemma {:induction false} PiecesAreSpans(rs: seq<Range>)
    requires ValidRanges(rs)
    ensures HexSpans(Pieces(rs), false) == AllDigits(rs)
  {
    hide PieceHex, CodeText, HexSpans;
    if rs == [] {
      NoSpans();
    } else {
      var r, more := rs[0], Pieces(rs[1..]);
      assert ValidRange(r);
      PiecesAreSpans(rs[1..]);
      PieceIsDigits(r.lo);
      if r.hi.None? {
        OneSpan(CodeText(r.lo), more);
      } else {
        PieceIsDigits(r.hi.value);
        TwoPieces(CodeText(r.lo) + "-", CodeText(r.hi.value), more);
      }
    }
  }

  lemma NoSpans()
    ensures HexSpans([], false) == []
  {
  }

  lemma OneSpan(p: string, more: seq<string>)
    requires !HasSuffix("-", p)
    ensures HexSpans([p] + more, false) == [HexSpan(PieceHex(p), PieceHex(p))] + HexSpans(more, false)
  {
    assert ([p] + more)[1..] == more;
  }

  lemma TwoPieces(p: string, q: string, more: seq<string>)
    requires HasSuffix("-", p) && !HasSuffix("-", q)
    ensures HexSpans([p, q] + more, false) == [HexSpan(PieceHex(p), PieceHex(q))] + HexSpans(more, false)
  {
    hide HasSuffix, PieceHex;
    assert ([p, q] + more)[1..] == [q] + more && ([q] + more)[1..] == more;
  }

  /** A pattern's ranges are cut out of its text as they were written into it. */
  lemma SpansOfPattern(negated: bool, rs: seq<Range>)
    requires ValidRanges(rs) && rs != []
    ensures ClassHexSpans(PatternText(negated, rs)) == AllDigits(rs)
    ensures HasPrefix("[^", PatternText(negated, rs)) <==> negated
  {
    hide HexSpans, Pieces;
    PatternPieces(negated, rs);
    PiecesAreSpans(rs);
  }

  lemma SpanOfRange(r: Range)
    requires ValidRange(r) && Fits(r)
    ensures var s := Span(CpText(Digits(r).lo), CpText(Digits(r).hi));
            ValidSpan(s) && Value(s.lo) == PartOf(r).lo && Value(s.hi) == PartOf(r).hi
  {
    CpOfValue(Digits(r).lo);
    CpOfValue(Digits(r).hi);
  }

  lemma {:induction false} PartsAt(rs: seq<Range>)
    requires ValidRanges(rs)
    ensures |PartsIn(rs)| == |rs| && forall i | 0 <= i < |rs| :: ValidRange(rs[i]) && PartsIn(rs)[i] == PartOf(rs[i])
  {
    if rs != [] {
      PartsAt(rs[1..]);
      assert ValidRange(rs[0]);
    }
  }

  /** The code points of a pattern's ranges are those of the parts the front-end folded it from. */
  lemma PatternHolds(negated: bool, rs: seq<Range>)
    requires ValidRanges(rs) && rs != [] && AllFit(rs)
    ensures var own := ClassSpans(PatternText(negated, rs));
            && ValidSpans(own) && WithinMax(own)
            && forall cp: nat :: Holds(own, cp) <==> InParts(PartsIn(rs), cp)
  {
    hide PartOf, CpText, ValidRange, Fits, PatternText, ClassHexSpans, PartsIn, Digits;
    var own := ClassSpans(PatternText(negated, rs));
    SpansOfPattern(negated, rs);
    PartsAt(rs);
    forall i | 0 <= i < |rs|
      ensures ValidSpan(own[i]) && Value(own[i].lo) == PartsIn(rs)[i].lo && Value(own[i].hi) == PartsIn(rs)[i].hi
      ensures PartsIn(rs)[i].hi <= MAX_CODE_POINT
    {
      RangeAt(rs, i);
    }
    forall cp: nat ensures Holds(own, cp) <==> InParts(PartsIn(rs), cp) {
      if Holds(own, cp) {
        var i :| 0 <= i < |own| && In(own[i], cp);
        assert PartsIn(rs)[i] in PartsIn(rs);
      }
      if InParts(PartsIn(rs), cp) {
        var p :| p in PartsIn(rs) && InPart(p, cp);
        var i :| 0 <= i < |rs| && PartsIn(rs)[i] == p;
        assert In(own[i], cp);
      }
    }
  }

  lemma RangeAt(rs: seq<Range>, i: nat)
    requires ValidRanges(rs) && AllFit(rs) && i < |rs|
    ensures ValidRange(rs[i]) && Fits(rs[i])
    ensures var s := Span(CpText(Digits(rs[i]).lo), CpText(Digits(rs[i]).hi));
            ValidSpan(s) && Value(s.lo) == PartOf(rs[i]).lo && Value(s.hi) == PartOf(rs[i]).hi <= MAX_CODE_POINT
  {
    assert rs[i] in rs;
    SpanOfRange(rs[i]);
  }

  // ---- the check

  function PatternTexts(ms: seq<seq<Range>>): seq<string> {
    if ms == [] then [] else [PatternText(false, ms[0])] + PatternTexts(ms[1..])
  }

  /** Whether a code point is in the class of some token of a set. */
  ghost predicate InMembers(ms: seq<seq<Range>>, cp: nat) {
    exists m :: m in ms && Readable(m) && InParts(PartsIn(m), cp)
  }

  lemma {:induction false} MembersHold(ms: seq<seq<Range>>)
    requires forall m | m in ms :: Readable(m)
    ensures var spans := MemberSpans(PatternTexts(ms));
            && ValidSpans(spans) && WithinMax(spans)
            && forall cp: nat :: Holds(spans, cp) <==> InMembers(ms, cp)
  {
    hide ClassSpans, PatternText, PartsIn, InParts;
    if ms == [] {
    } else {
      var m, more := ms[0], ms[1..];
      assert Readable(m);
      PatternHolds(false, m);
      MembersHold(more);
      var a, b := ClassSpans(PatternText(false, m)), MemberSpans(PatternTexts(more));
      assert MemberSpans(PatternTexts(ms)) == a + b;
      forall cp: nat ensures Holds(a + b, cp) <==> InMembers(ms, cp) {
        CatHolds(a, b, cp);
        assert InMembers(ms, cp) <==> InParts(PartsIn(m), cp) || InMembers(more, cp);
      }
    }
  }

  /** A token set is accepted exactly when its tokens match the code points its class matches. */
  lemma CheckSetIsExact(negated: bool, rs: seq<Range>, ms: seq<seq<Range>>)
    requires Readable(rs) && forall m | m in ms :: Readable(m)
    ensures CheckSet(PatternText(negated, rs), PatternTexts(ms))
       <==> forall cp: nat | cp <= 0x10_FFFF :: InMembers(ms, cp) <==> Matches(negated, PartsIn(rs), cp)
  {
    hide PatternText, ClassSpans, MemberSpans, Holds, InParts, InMembers, SpansTile, SpansSame;
    hide Merged, WithinMax, ValidSpans;
    var own, spans := ClassSpans(PatternText(negated, rs)), MemberSpans(PatternTexts(ms));
    SpansOfPattern(negated, rs);
    PatternHolds(negated, rs);
    MembersHold(ms);
    if negated {
      TileIffPartition(own, spans);
    } else {
      SameIffSets(own, spans);
      HeldWithin(own);
      HeldWithin(spans);
    }
  }

  /** The set of every character is accepted exactly when its tokens match every character. */
  lemma AnySetIsExact(ms: seq<seq<Range>>)
    requires forall m | m in ms :: Readable(m)
    ensures CheckSet("[\\s\\S]", PatternTexts(ms)) <==> forall cp: nat | cp <= 0x10_FFFF :: InMembers(ms, cp)
  {
    hide ClassSpans, MemberSpans, InMembers, SpansSame, Merged, WithinMax, ValidSpans, CpText, Holds;
    var own, spans := ClassSpans("[\\s\\S]"), MemberSpans(PatternTexts(ms));
    AnyHolds();
    MembersHold(ms);
    var any := "[\\s\\S]";
    HasPrefixIff("[^", any);
    assert any[..2][1] != '^';
    SameIffSets(own, spans);
    HeldWithin(spans);
  }

  lemma AnyHolds()
    ensures var own := ClassSpans("[\\s\\S]");
            ValidSpans(own) && forall cp: nat :: Holds(own, cp) <==> cp <= MAX_CODE_POINT
  {
    hide HexValue;
    MaximumDigits();
    CpOfValue("0");
    CpOfValue("10FFFF");
    var own := ClassSpans("[\\s\\S]");
    assert own == [Span(CpOf("0"), CpOf("10FFFF"))];
    forall cp: nat ensures Holds(own, cp) <==> cp <= MAX_CODE_POINT {
      assert In(own[0], cp) <==> cp <= MAX_CODE_POINT;
    }
  }
}
