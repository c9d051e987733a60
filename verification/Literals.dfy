/**
 How the render writes a literal: as the one W3C EBNF terminal that matches what the literal matches,
 and not at all where it would take more than one.
 */
module Literals {
  import opened Wrappers
  import opened Text
  import opened Grammar
  import opened CharClass
  import opened Syntax
  import opened ClassWriter
  import opened ClassPattern
  import Layout

  /** A character a W3C EBNF string cannot hold: C0, DEL and C1. */
  predicate Control(c: char) {
    c as int < 32 || 127 <= c as int <= 159
  }

  predicate NoControls(text: string) {
    forall i | 0 <= i < |text| :: !Control(text[i])
  }

  predicate BothQuotes(text: string) {
    '"' in text && '\'' in text
  }

  /** A character written as its code point, between the strings of the others. */
  predicate IsCut(c: char, both: bool) {
    Control(c) || (both && c == '"')
  }

  function Quote(text: string): string {
    if '"' in text then "'" + text + "'" else "\"" + text + "\""
  }

  /** The two digits of a code below 256. */
  function PairOf(code: nat): (h: string)
    requires code < 256
    ensures |h| == 2 && All(HexDigits, h)
  {
    [LowerDigit(code / 16), LowerDigit(code % 16)]
  }

  function CodeItem(c: char): string
    requires c as int < 256
  {
    "#x" + CodeDigits(PairOf(c as int))
  }

  /** How many characters a string can hold the text begins with. */
  function PlainRun(text: string, both: bool): (n: nat)
    ensures n <= |text|
    ensures forall i | 0 <= i < n :: !IsCut(text[i], both)
    ensures n == |text| || IsCut(text[n], both)
  {
    if text == "" || IsCut(text[0], both) then 0 else 1 + PlainRun(text[1..], both)
  }

  /** The strings and code points that spell a text, in order. */
  function Segments(text: string, both: bool): seq<string>
    decreases |text|
  {
    if text == "" then []
    else
      var n := PlainRun(text, both);
      if n == 0 then [CodeItem(text[0])] + Segments(text[1..], both)
      else [Quote(text[..n])] + Segments(text[n..], both)
  }

  function StringItems(text: string): seq<string> {
    var both := BothQuotes(text);
    if NoControls(text) && !both then [Quote(text)] else Segments(text, both)
  }

  // ---- literals that match either case

  predicate IsLetter(c: char) {
    'a' <= c <= 'z' || 'A' <= c <= 'Z'
  }

  /** The class of a letter's two cases. */
  function CaseItem(c: char): string
    requires IsLetter(c)
  {
    "[" + [LowerOf(c), UpperOf(c)] + "]"
  }

  function LowerOf(c: char): char
    requires IsLetter(c)
  {
    if c <= 'Z' then (c as int + 32) as char else c
  }

  function UpperOf(c: char): char
    requires IsLetter(c)
  {
    if c <= 'Z' then c else (c as int - 32) as char
  }

  /** Characters whose cases a pattern does not fold, or folds within ASCII. */
  predicate Caseless(c: char) {
    var n := c as int;
    || n <= 127 || 65536 <= n <= 66559 || 66640 <= n <= 66735 || 66816 <= n <= 66927 || 67008 <= n <= 68735
    || 68864 <= n <= 68927 || 69008 <= n <= 71839 || 71936 <= n <= 93759 || 93856 <= n <= 125183 || 125280 <= n
  }

  function OtherRun(text: string): (n: nat)
    ensures n <= |text|
    ensures forall i | 0 <= i < n :: !IsLetter(text[i])
    ensures n == |text| || IsLetter(text[n])
  {
    if text == "" || IsLetter(text[0]) then 0 else 1 + OtherRun(text[1..])
  }

  function FoldedItems(text: string): seq<string>
    decreases |text|
  {
    if text == "" then []
    else
      var n := OtherRun(text);
      if n == 0 then [CaseItem(text[0])] + FoldedItems(text[1..])
      else StringItems(text[..n]) + FoldedItems(text[n..])
  }

  /** A literal's terminals; none where it is empty or past what a class of two cases can say. */
  function LitItems(text: string, cs: bool): seq<string> {
    if text == "" then []
    else if cs then StringItems(text)
    else if forall i | 0 <= i < |text| :: Caseless(text[i]) then FoldedItems(text)
    else []
  }

  /** A literal's text, where it is one terminal. */
  function LitText(text: string, cs: bool): Option<string> {
    var items := LitItems(text, cs);
    if |items| == 1 then Some(items[0]) else None
  }

  // ---- which literals are one terminal

  /** The literals that one terminal spells, by what they hold. */
  predicate OneTerminal(text: string, cs: bool) {
    && text != ""
    && (cs || forall i | 0 <= i < |text| :: Caseless(text[i]))
    && (|text| == 1
        || (NoControls(text) && !BothQuotes(text) && (cs || forall i | 0 <= i < |text| :: !IsLetter(text[i]))))
  }

  lemma {:induction false} SegmentsSome(text: string, both: bool)
    ensures Segments(text, both) == [] <==> text == ""
    ensures |Segments(text, both)| == 1 <==>
              text != "" && (PlainRun(text, both) == |text| || (|text| == 1 && IsCut(text[0], both)))
    decreases |text|
  {
    if text != "" {
      var n := PlainRun(text, both);
      SegmentsSome(text[if n == 0 then 1 else n..], both);
    }
  }

  lemma StringItemsOne(text: string)
    requires text != ""
    ensures StringItems(text) != []
    ensures |StringItems(text)| == 1 <==> |text| == 1 || (NoControls(text) && !BothQuotes(text))
    ensures |text| == 1 && Control(text[0]) ==> StringItems(text) == [CodeItem(text[0])]
    ensures NoControls(text) && !BothQuotes(text) ==> StringItems(text) == [Quote(text)]
  {
    var both := BothQuotes(text);
    SegmentsSome(text, both);
    assert |text| == 1 ==> !both;
    if PlainRun(text, both) == |text| { assert NoControls(text) && !both; }
  }

  lemma {:induction false} FoldedSome(text: string)
    ensures FoldedItems(text) == [] <==> text == ""
    decreases |text|
  {
    if text != "" {
      var n := OtherRun(text);
      if n > 0 { StringItemsOne(text[..n]); }
    }
  }

  lemma FoldedOne(text: string)
    requires text != ""
    ensures |FoldedItems(text)| == 1 <==>
              |text| == 1 || ((forall i | 0 <= i < |text| :: !IsLetter(text[i])) && |StringItems(text)| == 1)
    ensures |text| == 1 && IsLetter(text[0]) ==> FoldedItems(text) == [CaseItem(text[0])]
    ensures (forall i | 0 <= i < |text| :: !IsLetter(text[i])) ==> FoldedItems(text) == StringItems(text)
  {
    var n := OtherRun(text);
    FoldedSome(text[if n == 0 then 1 else n..]);
    if n == 0 {
    } else {
      StringItemsOne(text[..n]);
      if n == |text| {
        assert text[..n] == text && text[n..] == "";
        Ends(StringItems(text));
        StringItemsOne(text);
      }
    }
  }

  /** A literal is written exactly when one terminal spells it. */
  lemma WrittenIffOneTerminal(text: string, cs: bool)
    ensures LitText(text, cs).Some? <==> OneTerminal(text, cs)
  {
    if text != "" {
      StringItemsOne(text);
      FoldedOne(text);
    }
  }

  // ---- what a written literal is read back as

  /** The terminal a literal is read back as, in its source form. */
  function LitAtom(text: string, cs: bool): Atom {
    if !cs && |text| == 1 && IsLetter(text[0]) then Class(false, [LowerOf(text[0]), UpperOf(text[0])])
    else if |text| == 1 && Control(text[0]) then Hex(CodeDigits(PairOf(text[0] as int)))
    else Quoted(if '"' in text then '\'' else '"', text)
  }

  /** What it matches: its own text, or one letter in either case. */
  function LitImage(text: string, cs: bool): Element {
    if !cs && |text| == 1 && IsLetter(text[0]) then
      Regex(false, [Part(LowerOf(text[0]) as int, LowerOf(text[0]) as int),
                    Part(UpperOf(text[0]) as int, UpperOf(text[0]) as int)], None)
    else Term(text, None)
  }

  lemma CaseIsRead(c: char)
    requires IsLetter(c)
    ensures var a := Class(false, [LowerOf(c), UpperOf(c)]);
            AtomText(a) == CaseItem(c) && Layout.SpacedAtom(a) && EraseAtom(a) == LitImage([c], false)
  {
    var l, u := LowerOf(c), UpperOf(c);
    MembersOne([l, u]);
    MembersOne([u]);
    assert [l, u][1..] == [u] && [u][1..] == "";
    MembersOfNothing();
    Ends([Point(u as int)]);
    assert [Point(l as int)] + [Point(u as int)] == [Point(l as int), Point(u as int)];
    FoldPoint(Point(u as int), []);
    FoldPoint(Point(l as int), [Point(u as int)]);
    NothingFolds();
    Ends([Part(u as int, u as int)]);
    assert [Part(l as int, l as int)] + [Part(u as int, u as int)]
        == [Part(l as int, l as int), Part(u as int, u as int)];
  }

  lemma CodeIsRead(c: char)
    requires Control(c)
    ensures var a := Hex(CodeDigits(PairOf(c as int)));
            AtomText(a) == CodeItem(c) && Layout.SpacedAtom(a) && EraseAtom(a) == Term([c], None)
  {
    hide CodeDigits;
    var h := PairOf(c as int);
    CodeDigitsValue(h);
    PairValue(c as int);
  }

  lemma PairValue(n: nat)
    requires n < 256
    ensures HexValue(PairOf(n)) == n
  {
    var h := PairOf(n);
    assert h[..1][..0] == "" && h[..1][0] == h[0];
    assert HexValue(h[..1]) == HexDigit(h[0]);
  }

  /** A literal that is written is read back as the terminal it matches. */
  lemma LitIsRead(text: string, cs: bool)
    requires OneTerminal(text, cs)
    ensures LitText(text, cs) == Some(AtomText(LitAtom(text, cs)))
    ensures Layout.SpacedAtom(LitAtom(text, cs)) && EraseAtom(LitAtom(text, cs)) == LitImage(text, cs)
  {
    hide StringItems, FoldedItems, Layout.SpacedAtom, EraseAtom, AtomText;
    StringItemsOne(text);
    FoldedOne(text);
    if !cs && |text| == 1 && IsLetter(text[0]) {
      CaseIsRead(text[0]);
      assert text == [text[0]];
    } else if |text| == 1 && Control(text[0]) {
      CodeIsRead(text[0]);
      assert text == [text[0]];
    } else {
      assert |text| == 1 ==> NoControls(text) && !BothQuotes(text);
      QuoteIsRead(text);
    }
  }

  // ---- what a literal matches

  const LOWER_CASE := "abcdefghijklmnopqrstuvwxyz"
  const UPPER_CASE := "ABCDEFGHIJKLMNOPQRSTUVWXYZ"

  function LowerAt(i: nat): char
    requires i < 26
  {
    LOWER_CASE[i]
  }

  function UpperAt(i: nat): char
    requires i < 26
  {
    UPPER_CASE[i]
  }

  /** Whether two characters are the two cases of the i-th letter. */
  predicate AreCases(a: char, b: char, i: nat)
    requires i < 26
  {
    (a == LowerAt(i) && b == UpperAt(i)) || (a == UpperAt(i) && b == LowerAt(i))
  }

  /** Whether two characters are one letter in either case, or one character. */
  predicate SameFolded(a: char, b: char) {
    a == b || exists i :: 0 <= i < 26 && AreCases(a, b, i)
  }

  /** Whether a literal matches a text, letter by letter in either case if its case does not matter. */
  predicate LitMatches(text: string, cs: bool, w: string) {
    |w| == |text| && forall i | 0 <= i < |text| :: if cs then w[i] == text[i] else SameFolded(w[i], text[i])
  }

  /** Whether a terminal matches a text. */
  ghost predicate TerminalMatches(e: Element, w: string) {
    match e
    case Term(l, _) => w == l
    case Regex(negated, parts, _) => |w| == 1 && Matches(negated, parts, w[0] as int)
    case _ => false
  }

  lemma FoldedLetter(a: char, b: char)
    ensures !IsLetter(b) ==> (SameFolded(a, b) <==> a == b)
    ensures IsLetter(b) ==> (SameFolded(a, b) <==> a == LowerOf(b) || a == UpperOf(b))
  {
    hide AreCases;
    forall i | 0 <= i < 26 ensures AreCases(a, b, i) ==> IsLetter(b) && (a == LowerOf(b) || a == UpperOf(b)) {
      CasesAt(a, b, i);
    }
    if IsLetter(b) {
      CasesAt(LowerOf(b), UpperOf(b), LowerOf(b) as int - 97);
      CasesAt(UpperOf(b), LowerOf(b), LowerOf(b) as int - 97);
    }
  }

  lemma CasesAt(a: char, b: char, i: nat)
    requires i < 26
    ensures AreCases(a, b, i) <==>
            (a as int == 97 + i && b as int == 65 + i) || (a as int == 65 + i && b as int == 97 + i)
  {
    hide LowerAt, UpperAt;
    LettersAre(i);
  }

  lemma LettersAre(i: nat)
    requires i < 26
    ensures LowerAt(i) as int == 97 + i && UpperAt(i) as int == 65 + i
  {
  }

  /** The terminal a literal is read back as matches what the literal matches. */
  lemma ImageMatches(text: string, cs: bool, w: string)
    requires OneTerminal(text, cs)
    ensures LitMatches(text, cs, w) <==> TerminalMatches(LitImage(text, cs), w)
  {
    hide SameFolded;
    forall i | 0 <= i < |text| && i < |w|
      ensures !IsLetter(text[i]) ==> (SameFolded(w[i], text[i]) <==> w[i] == text[i])
    {
      FoldedLetter(w[i], text[i]);
    }
    if !cs && |text| == 1 && IsLetter(text[0]) {
      if |w| == 1 {
        FoldedLetter(w[0], text[0]);
        TwoCases(text[0], w[0]);
      }
    }
  }

  lemma TwoCases(c: char, w: char)
    requires IsLetter(c)
    ensures InParts(LitImage([c], false).parts, w as int) <==> w == LowerOf(c) || w == UpperOf(c)
  {
    var ps := LitImage([c], false).parts;
    assert ps[0] in ps && ps[1] in ps;
    if w == LowerOf(c) { assert InPart(ps[0], w as int); }
    if w == UpperOf(c) { assert InPart(ps[1], w as int); }
  }

  lemma QuoteIsRead(text: string)
    requires text != "" && NoControls(text) && !BothQuotes(text)
    ensures var a := Quoted(if '"' in text then '\'' else '"', text);
            AtomText(a) == Quote(text) && Layout.SpacedAtom(a) && EraseAtom(a) == Term(text, None)
  {
    var q := if '"' in text then '\'' else '"';
    forall i | 0 <= i < |text| ensures Is(StringChars(q), text[i]) {
      assert text[i] in text;
    }
  }
}
