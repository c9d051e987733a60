/**
 The pattern a front-end compiles a class to, and the round trip through it: a class compiled, written
 back by the render and read again is the same class.
 */
module ClassPattern {
  import opened Wrappers
  import opened Text
  import opened Grammar
  import opened CharClass
  import opened Syntax
  import opened ClassWriter
  import Layout

  function LowerDigit(d: nat): (c: char)
    requires d < 16
    ensures IsHex(c) && HexDigit(c) == d
    ensures !('A' <= c <= 'F')
  {
    if d < 10 then (48 + d) as char else (87 + d) as char
  }

  /** A number in base 16, in lower case and without leading zeros. */
  function HexOf(n: nat): (h: string)
    ensures h != "" && All(HexDigits, h)
  {
    if n < 16 then [LowerDigit(n)] else HexOf(n / 16) + [LowerDigit(n % 16)]
  }

  function Padded(h: string): string
    decreases 4 - |h|
  {
    if |h| < 4 then Padded("0" + h) else h
  }

  /** A code point's escape: every one of a class in braces where one of its ends is past U+FFFF. */
  function Escape(n: nat, astral: bool): Code {
    if astral then Code(HexOf(n), true) else Code(Padded(HexOf(n)), false)
  }

  predicate Astral(parts: seq<Part>) {
    exists p :: p in parts && (p.lo > 0xFFFF || p.hi > 0xFFFF)
  }

  function RangeOf(p: Part, astral: bool): Range {
    Range(Escape(p.lo, astral), if p.lo == p.hi then None else Some(Escape(p.hi, astral)))
  }

  function RangesOf(parts: seq<Part>, astral: bool): seq<Range> {
    if parts == [] then [] else [RangeOf(parts[0], astral)] + RangesOf(parts[1..], astral)
  }

  function Compiled(negated: bool, parts: seq<Part>): string {
    PatternText(negated, RangesOf(parts, Astral(parts)))
  }

  /** Braces are written exactly where the class's parts hold a code point that four digits cannot say. */
  lemma AstralIff(parts: seq<Part>)
    requires forall p | p in parts :: Ordered(p)
    ensures Astral(parts) <==> exists cp :: 0x1_0000 <= cp <= 0x10_FFFF && InParts(parts, cp)
  {
    if Astral(parts) {
      var p :| p in parts && (p.lo > 0xFFFF || p.hi > 0xFFFF);
      assert Ordered(p) && InPart(p, p.hi);
      assert InParts(parts, p.hi);
    }
    if cp: nat :| 0x1_0000 <= cp <= 0x10_FFFF && InParts(parts, cp) {
      var p :| p in parts && InPart(p, cp);
      assert p.hi > 0xFFFF;
    }
  }

  lemma {:induction false} HexOfValue(n: nat)
    ensures HexValue(HexOf(n)) == n
  {
    if n >= 16 {
      HexOfValue(n / 16);
      assert HexOf(n)[..|HexOf(n)| - 1] == HexOf(n / 16);
    } else {
      assert HexOf(n)[..0] == "";
    }
  }

  lemma {:induction false} HexOfLength(n: nat, k: nat)
    requires n < Pow16(k) && k >= 1
    ensures |HexOf(n)| <= k
  {
    if n >= 16 { HexOfLength(n / 16, k - 1); }
  }

  lemma {:induction false} PaddedValue(h: string)
    requires All(HexDigits, h) && |h| <= 4
    ensures |Padded(h)| == 4 && All(HexDigits, Padded(h)) && HexValue(Padded(h)) == HexValue(h)
    decreases 4 - |h|
  {
    if |h| < 4 {
      LeadingZero("0" + h);
      PaddedValue("0" + h);
    }
  }

  lemma EscapeIsValid(n: nat, astral: bool)
    requires n <= MAX_CODE_POINT && (n > 0xFFFF ==> astral)
    ensures ValidCode(Escape(n, astral)) && HexValue(Escape(n, astral).digits) == n
  {
    HexOfValue(n);
    assert Pow16(4) == 0x1_0000 && Pow16(6) == 0x100_0000 by {
      assert Pow16(1) == 16 && Pow16(2) == 0x100 && Pow16(3) == 0x1000 && Pow16(4) == 0x1_0000 && Pow16(5) == 0x10_0000;
    }
    HexOfLength(n, if astral then 6 else 4);
    PaddedValueIf(n, astral);
  }

  lemma PaddedValueIf(n: nat, astral: bool)
    requires |HexOf(n)| <= 4 || astral
    ensures !astral ==> |Padded(HexOf(n))| == 4 && All(HexDigits, Padded(HexOf(n)))
                        && HexValue(Padded(HexOf(n))) == HexValue(HexOf(n))
  {
    if !astral { PaddedValue(HexOf(n)); }
  }

  lemma {:induction false} RangesAreValid(parts: seq<Part>, astral: bool)
    requires forall p | p in parts :: Ordered(p) && (p.hi > 0xFFFF ==> astral)
    ensures ValidRanges(RangesOf(parts, astral))
    ensures AllFit(RangesOf(parts, astral)) && PartsIn(RangesOf(parts, astral)) == parts
  {
    if parts != [] {
      var p := parts[0];
      EscapeIsValid(p.lo, astral);
      EscapeIsValid(p.hi, astral);
      RangesAreValid(parts[1..], astral);
    }
  }

  /** Reading what the render writes for a class gives back its negation and its list of ranges. */
  lemma ClassRoundTrip(negated: bool, parts: seq<Part>) returns (body: string)
    requires parts != [] && forall p | p in parts :: Ordered(p)
    ensures ClassText(Compiled(negated, parts)) == AtomText(Class(negated, body))
    ensures EraseAtom(Class(negated, body)) == Regex(negated, parts, None)
    ensures Layout.SpacedAtom(Class(negated, body))
  {
    var rs := RangesOf(parts, Astral(parts));
    forall p | p in parts ensures p.hi > 0xFFFF ==> Astral(parts) {
    }
    RangesAreValid(parts, Astral(parts));
    assert rs != [];
    body := WrittenClassIsRead(negated, rs);
  }
}
