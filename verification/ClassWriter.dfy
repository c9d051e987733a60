/**
 How the render writes a character class back. The class comes as the pattern a front-end compiled it
 to, cut into its members at each `\u`; each member is written as its character or as a code point,
 so that no code point's digits run into the next member.
 */
module ClassWriter {
  import opened Wrappers
  import opened Text
  import opened Strings
  import opened Grammar
  import opened CharClass
  import opened Syntax
  import Layout

  // ---- the patterns a class is compiled to

  /** A code point's escape, after its `\u`: four digits, or one to six of them in braces. */
  datatype Code = Code(digits: string, braced: bool)

  /** A member of a pattern: a code point, or a range up to another. */
  datatype Range = Range(lo: Code, hi: Option<Code>)

  predicate ValidCode(c: Code) {
    All(HexDigits, c.digits) && if c.braced then 1 <= |c.digits| <= 6 else |c.digits| == 4
  }

  predicate ValidRange(r: Range) {
    ValidCode(r.lo) && (r.hi.Some? ==> ValidCode(r.hi.value))
  }

  predicate ValidRanges(rs: seq<Range>) {
    forall r | r in rs :: ValidRange(r)
  }

  function CodeText(c: Code): string {
    if c.braced then "{" + c.digits + "}" else c.digits
  }

  /** What stands between one `\u` and the next: a code, and the dash of a range's low end. */
  function Pieces(rs: seq<Range>): seq<string> {
    if rs == [] then []
    else
      (match rs[0].hi
       case None => [CodeText(rs[0].lo)]
       case Some(hi) => [CodeText(rs[0].lo) + "-", CodeText(hi)]) + Pieces(rs[1..])
  }

  function PatternText(negated: bool, rs: seq<Range>): string {
    "[" + ((if negated then "^" else "") + Join("\\u", [""] + Pieces(rs))) + "]"
  }

  // ---- the render's writer

  function UpperDigit(c: char): char {
    if 'a' <= c <= 'f' then (c as int - 32) as char else c
  }

  function Upper(h: string): (u: string)
    ensures |u| == |h|
    ensures All(HexDigits, h) ==> All(HexDigits, u)
  {
    if h == "" then "" else [UpperDigit(h[0])] + Upper(h[1..])
  }

  function TrimZeros(h: string): string {
    if At(h, '0') then TrimZeros(h[1..]) else h
  }

  /** A code point's digits as W3C EBNF writes them: in capitals, without leading zeros. */
  function CodeDigits(h: string): string {
    var trimmed := TrimZeros(Upper(h));
    if trimmed == "" then "0" else trimmed
  }

  /** The digits of a piece: what its braces hold, or all of it. */
  function PieceDigits(core: string): string {
    if HasPrefix("{", core) then Before("}", After("{", core)) else core
  }

  /** A character that stands for itself inside a class. */
  predicate Plain(cp: nat) {
    33 <= cp <= 34 || 36 <= cp <= 44 || 46 <= cp <= 90 || 95 <= cp <= 126
  }

  /** A member, or a code point whatever it is where `coded` is true. */
  function Member(hex: string, coded: bool): string {
    if |hex| > 4 || coded || !All(HexDigits, hex) || Surrogate(HexValue(hex)) || !Plain(HexValue(hex))
    then "#x" + CodeDigits(hex)
    else [HexValue(hex) as char]
  }

  /** A printable character is written as itself but for those that mean something inside a class. */
  lemma PlainIff(hex: string)
    requires All(HexDigits, hex) && hex != ""
    ensures var v := HexValue(hex);
            Member(hex, false) == (if |hex| <= 4 && Printable(v) && !ClassMark(v) then [v as char]
                                   else "#x" + CodeDigits(hex))
  {
    hide CodeDigits, HexValue;
  }

  predicate Printable(v: nat) {
    0x20 < v < 0x7F
  }

  /** The characters that mean something inside a class. */
  predicate ClassMark(v: nat) {
    v == ']' as int || v == '[' as int || v == '\\' as int || v == '-' as int || v == '^' as int || v == '#' as int
  }

  function MemberWritten(piece: string, coded: bool): string {
    if HasSuffix("-", piece) then Member(PieceDigits(Before("-", piece)), coded) + "-"
    else Member(PieceDigits(piece), coded)
  }

  /** Whether a member's text ends with a code point's digits. */
  predicate CodeLast(text: string) {
    Begins(text, '#', 'x') && text[|text| - 1] != '-'
  }

  /** The members one after another; `coded` tells whether the text before them ends with digits. */
  function MembersText(pieces: seq<string>, coded: bool): string {
    if pieces == [] then ""
    else
      var plain := MemberWritten(pieces[0], false);
      var text := if coded && Next(HexDigits, plain) then MemberWritten(pieces[0], true) else plain;
      text + MembersText(pieces[1..], CodeLast(text))
  }

  function ClassText(pat: string): string {
    if pat == "[\\s\\S]" then "[#x0-#x10FFFF]"
    else
      var body := Before("]", After("[", pat));
      var negated := HasPrefix("^", body);
      var members := Split("\\u", if negated then After("^", body) else body)[1..];
      (if negated then "[^" else "[") + MembersText(members, false) + "]"
  }

  // ---- digits

  lemma {:induction false} UpperValue(h: string)
    requires All(HexDigits, h)
    ensures HexValue(Upper(h)) == HexValue(h)
  {
    if h != "" {
      var n := |h| - 1;
      UpperAt(h, n);
      UpperPrefix(h, n);
      UpperValue(h[..n]);
    }
  }

  lemma {:induction false} UpperAt(h: string, i: nat)
    requires i < |h|
    ensures Upper(h)[i] == UpperDigit(h[i])
  {
    if i > 0 { UpperAt(h[1..], i - 1); }
  }

  lemma UpperPrefix(h: string, n: nat)
    requires n <= |h|
    ensures Upper(h)[..n] == Upper(h[..n])
  {
    forall i | 0 <= i < n ensures Upper(h)[i] == Upper(h[..n])[i] {
      UpperAt(h, i);
      UpperAt(h[..n], i);
    }
  }

  lemma {:induction false} LeadingZero(h: string)
    requires All(HexDigits, h) && At(h, '0')
    ensures HexValue(h[1..]) == HexValue(h)
  {
    if |h| > 1 {
      var n := |h| - 1;
      LeadingZero(h[..n]);
      assert h[1..][..n - 1] == h[..n][1..];
    } else {
      assert h[..0] == "";
    }
  }

  lemma {:induction false} TrimmedValue(h: string)
    requires All(HexDigits, h)
    ensures All(HexDigits, TrimZeros(h)) && HexValue(TrimZeros(h)) == HexValue(h)
  {
    if At(h, '0') {
      LeadingZero(h);
      TrimmedValue(h[1..]);
    }
  }

  /** Digits in capitals without leading zeros are the same number's. */
  lemma CodeDigitsValue(h: string)
    requires All(HexDigits, h)
    ensures CodeDigits(h) != "" && All(HexDigits, CodeDigits(h)) && HexValue(CodeDigits(h)) == HexValue(h)
  {
    UpperValue(h);
    TrimmedValue(Upper(h));
    assert HexValue("0") == 0;
  }

  /** A code point's digits are in capitals, and begin with a zero only where they are nothing else. */
  lemma CodeDigitsForm(h: string)
    requires All(HexDigits, h)
    ensures var d := CodeDigits(h);
            (forall i | 0 <= i < |d| :: d[i] in "0123456789ABCDEF") && (d[0] == '0' ==> d == "0")
  {
    var u := Upper(h);
    forall i | 0 <= i < |u| ensures u[i] in "0123456789ABCDEF" {
      UpperAt(h, i);
      CapitalDigit(h[i]);
    }
    TrimmedIsEnd(u);
  }

  lemma CapitalDigit(c: char)
    requires IsHex(c)
    ensures UpperDigit(c) in "0123456789ABCDEF"
  {
    var n := HexDigit(c);
    assert "0123456789ABCDEF"[n] == UpperDigit(c);
  }

  lemma {:induction false} TrimmedIsEnd(h: string)
    ensures var t := TrimZeros(h); |t| <= |h| && t == h[|h| - |t|..] && !At(t, '0')
  {
    if At(h, '0') { TrimmedIsEnd(h[1..]); }
  }

  function Pow16(n: nat): nat {
    if n == 0 then 1 else 16 * Pow16(n - 1)
  }

  lemma {:induction false} DigitsBound(h: string)
    requires All(HexDigits, h)
    ensures HexValue(h) < Pow16(|h|)
  {
    if h != "" { DigitsBound(h[..|h| - 1]); }
  }

  // ---- what the reader makes of a written member

  /** What a member of a pattern is read back as. */
  function Mark(hex: string, rest: Checked<seq<CharClass.Member>>): Checked<seq<CharClass.Member>>
    requires All(HexDigits, hex)
  {
    if HexValue(hex) <= MAX_CODE_POINT then Then(Point(HexValue(hex)), rest) else Refused(AboveMaximum)
  }

  lemma CodeIsRead(hex: string, rest: string)
    requires All(HexDigits, hex) && 1 <= |hex| <= 6 && !Next(HexDigits, rest)
    ensures Members("#x" + CodeDigits(hex) + rest) == Mark(hex, Members(rest))
  {
    hide CodeDigits, Members, HexValue;
    var d := CodeDigits(hex);
    var body := "#x" + d + rest;
    CodeDigitsValue(hex);
    RunIs(HexDigits, d, rest);
    assert body[2..] == d + rest;
    DigitsBound(hex);
    PowerIsSmall(|hex|);
    MembersCode(body, d + rest, |d|);
  }

  lemma PowerIsSmall(n: nat)
    requires n <= 6
    ensures Pow16(n) <= 0x100_0000
  {
    assert Pow16(6) == 16 * Pow16(5) && Pow16(5) == 16 * Pow16(4) && Pow16(4) == 16 * Pow16(3);
    assert Pow16(3) == 16 * Pow16(2) && Pow16(2) == 16 * Pow16(1) && Pow16(1) == 16 * Pow16(0);
  }

  /** A character that stands for itself is no hyphen and begins no code point. */
  lemma PlainIsRead(cp: nat, rest: string)
    requires Plain(cp)
    ensures Members([cp as char] + rest) == Then(Point(cp), Members(rest))
  {
    var c := cp as char;
    var body := [c] + rest;
    assert c != '-' && c != '#' && body[0] == c && body[1..] == rest;
    MembersOne(body);
  }

  lemma HyphenIsRead(rest: string)
    ensures Members("-" + rest) == Then(Hyphen, Members(rest))
  {
    var body := "-" + rest;
    assert body[0] == '-' && body[1..] == rest;
    MembersOne(body);
  }

  lemma MemberIsRead(hex: string, coded: bool, rest: string)
    requires All(HexDigits, hex) && 1 <= |hex| <= 6
    requires Begins(Member(hex, coded), '#', 'x') ==> !Next(HexDigits, rest)
    ensures Members(Member(hex, coded) + rest) == Mark(hex, Members(rest))
  {
    hide Members, CodeDigits;
    if |hex| > 4 || coded || Surrogate(HexValue(hex)) || !Plain(HexValue(hex)) {
      CodeIsRead(hex, rest);
    } else {
      PlainIsRead(HexValue(hex), rest);
    }
  }

  /** The form a member is written in behind a text that ends with digits, or does not. */
  function Chosen(hex: string, coded: bool): string {
    Member(hex, coded && Next(HexDigits, Member(hex, false)))
  }

  lemma ChosenForm(hex: string, coded: bool)
    requires All(HexDigits, hex) && hex != ""
    ensures var t := Chosen(hex, coded);
            && t != "" && t[0] != '^' && t[|t| - 1] != '-' && All(ClassChars, t)
            && (coded ==> !Next(HexDigits, t))
            && CodeLast(t) == Begins(t, '#', 'x') && !CodeLast(t + "-")
  {
    hide CodeDigits;
    CodeDigitsValue(hex);
  }

  lemma PieceWritten(c: Code, dash: bool, coded: bool)
    requires ValidCode(c)
    ensures MemberWritten(if dash then CodeText(c) + "-" else CodeText(c), coded)
         == Member(c.digits, coded) + if dash then "-" else ""
  {
    var t := CodeText(c);
    if c.braced {
      AfterFirst("{", c.digits + "}");
      BeforeLast('}', c.digits);
      assert "{" + (c.digits + "}") == t;
    } else {
      HasPrefixIff("{", t);
      assert t[..1] == [t[0]];
    }
    assert PieceDigits(t) == c.digits;
    if dash {
      BeforeLast('-', t);
    } else {
      HasSuffixIff('-', t);
      Text.Ends(Member(c.digits, coded));
    }
  }

  /** One piece of a pattern and the ones after it, as they are written. */
  lemma PiecesText(c: Code, dash: bool, more: seq<string>, coded: bool)
    requires ValidCode(c)
    ensures var t := Chosen(c.digits, coded) + if dash then "-" else "";
            MembersText([if dash then CodeText(c) + "-" else CodeText(c)] + more, coded)
            == t + MembersText(more, CodeLast(t))
  {
    hide MemberWritten, CodeLast, Member;
    var p := if dash then CodeText(c) + "-" else CodeText(c);
    PieceWritten(c, dash, false);
    PieceWritten(c, dash, true);
    assert ([p] + more)[1..] == more;
    PlainNext(c.digits, dash);
  }

  lemma PlainNext(hex: string, dash: bool)
    ensures Next(HexDigits, Member(hex, false) + if dash then "-" else "") == Next(HexDigits, Member(hex, false))
  {
  }

  // ---- the whole class

  /** What the members of a pattern are read back as. */
  function Marks(rs: seq<Range>): Checked<seq<CharClass.Member>>
    requires ValidRanges(rs)
  {
    if rs == [] then Fine([])
    else
      var r := rs[0];
      assert ValidRange(r);
      var rest := Marks(rs[1..]);
      Mark(r.lo.digits, if r.hi.None? then rest else Then(Hyphen, Mark(r.hi.value.digits, rest)))
  }

  /**
   Whether a text is read as some members, in a class whose body it may begin, and does not run on from a code
   point's digits where it stands behind one.
   */
  predicate IsReadAs(t: string, coded: bool, ms: Checked<seq<CharClass.Member>>) {
    && Members(t) == ms
    && (coded ==> !Next(HexDigits, t))
    && All(ClassChars, t) && (t != "" ==> t[0] != '^')
  }

  lemma {:induction false} MembersTextIsRead(rs: seq<Range>, coded: bool)
    requires ValidRanges(rs)
    ensures var t := MembersText(Pieces(rs), coded);
            IsReadAs(t, coded, Marks(rs)) && (rs != [] ==> t != "")
  {
    hide IsReadAs, Mark, CodeText, MembersText;
    if rs == [] {
      assert Pieces(rs) == [];
      NothingIsRead(coded);
    } else {
      var r, more := rs[0], Pieces(rs[1..]);
      assert ValidRange(r);
      MembersTextIsRead(rs[1..], false);
      MembersTextIsRead(rs[1..], true);
      if r.hi.None? {
        LastIsRead(r.lo, more, coded, Marks(rs[1..]));
      } else {
        RangeIsRead(r.lo, r.hi.value, more, coded, Marks(rs[1..]));
        assert [CodeText(r.lo) + "-", CodeText(r.hi.value)] + more
            == [CodeText(r.lo) + "-"] + ([CodeText(r.hi.value)] + more);
      }
    }
  }

  lemma NothingIsRead(coded: bool)
    ensures IsReadAs(MembersText([], coded), coded, Fine([]))
  {
    MembersOfNothing();
  }

  lemma MembersOfNothing()
    ensures Members("") == Fine([])
  {
  }

  /** A member that ends a range or stands alone, before pieces that read as `rest`. */
  lemma LastIsRead(c: Code, more: seq<string>, coded: bool, rest: Checked<seq<CharClass.Member>>)
    requires ValidCode(c)
    requires IsReadAs(MembersText(more, false), false, rest) && IsReadAs(MembersText(more, true), true, rest)
    ensures var t := MembersText([CodeText(c)] + more, coded);
            IsReadAs(t, coded, Mark(c.digits, rest)) && t != ""
  {
    hide Members, Mark, MembersText, CodeText, Member, CodeLast;
    var x := Chosen(c.digits, coded);
    PiecesText(c, false, more, coded);
    Text.Ends(x);
    ChosenForm(c.digits, coded);
    MemberIsRead(c.digits, coded && Next(HexDigits, Member(c.digits, false)), MembersText(more, CodeLast(x)));
  }

  lemma RangeIsRead(lo: Code, hi: Code, more: seq<string>, coded: bool, rest: Checked<seq<CharClass.Member>>)
    requires ValidCode(lo) && ValidCode(hi)
    requires IsReadAs(MembersText(more, false), false, rest) && IsReadAs(MembersText(more, true), true, rest)
    ensures var t := MembersText([CodeText(lo) + "-"] + ([CodeText(hi)] + more), coded);
            IsReadAs(t, coded, Mark(lo.digits, Then(Hyphen, Mark(hi.digits, rest)))) && t != ""
  {
    hide Members, Mark, MembersText, CodeText, Member, CodeLast;
    var x := Chosen(lo.digits, coded);
    var tail := MembersText([CodeText(hi)] + more, false);
    PiecesText(lo, true, [CodeText(hi)] + more, coded);
    ChosenForm(lo.digits, coded);
    LastIsRead(hi, more, false, rest);
    HyphenIsRead(tail);
    Assoc(x, "-", tail);
    Push('-', tail);
    MemberIsRead(lo.digits, coded && Next(HexDigits, Member(lo.digits, false)), "-" + tail);
  }

  /** Whether a range's ends are code points in order. */
  predicate Fits(r: Range)
    requires ValidRange(r)
  {
    PartOf(r).lo <= PartOf(r).hi <= 0x10_FFFF
  }

  function PartOf(r: Range): Part
    requires ValidRange(r)
  {
    Part(HexValue(r.lo.digits), HexValue(if r.hi.None? then r.lo.digits else r.hi.value.digits))
  }

  function PartsIn(rs: seq<Range>): seq<Part>
    requires ValidRanges(rs)
  {
    if rs == [] then [] else [PartOf(rs[0])] + PartsIn(rs[1..])
  }

  predicate AllFit(rs: seq<Range>)
    requires ValidRanges(rs)
  {
    forall r | r in rs :: Fits(r)
  }

  /** A class as a front-end compiles one: ranges of code points, in order. */
  predicate Readable(rs: seq<Range>) {
    rs != [] && ValidRanges(rs) && AllFit(rs)
  }

  lemma {:induction false} MarksFold(rs: seq<Range>)
    requires ValidRanges(rs)
    ensures Marks(rs).Fine? ==> Marks(rs).value == [] || Marks(rs).value[0].Point?
    ensures AllFit(rs) ==> Marks(rs).Fine? && Fold(Marks(rs).value) == Fine(PartsIn(rs))
    ensures !AllFit(rs) ==> Marks(rs).Refused? || Fold(Marks(rs).value).Refused?
  {
    if rs != [] {
      hide Mark, Fold, Fits, PartOf;
      var r, more := rs[0], rs[1..];
      assert ValidRange(r);
      MarksFold(more);
      assert AllFit(rs) <==> Fits(r) && AllFit(more);
      MarkFolds(r, Marks(more));
    }
  }

  /** What one range of a pattern is read back as, before what the others are. */
  lemma MarkFolds(r: Range, rest: Checked<seq<CharClass.Member>>)
    requires ValidRange(r) && (rest.Fine? && rest.value != [] ==> rest.value[0].Point?)
    ensures var m := Mark(r.lo.digits, if r.hi.None? then rest else Then(Hyphen, Mark(r.hi.value.digits, rest)));
            && (rest.Refused? ==> m.Refused?)
            && (m.Fine? ==> m.value != [] && m.value[0].Point?)
            && (Fits(r) && rest.Fine? ==> m.Fine? && Fold(m.value) == Then(PartOf(r), Fold(rest.value)))
            && (!Fits(r) ==> m.Refused? || Fold(m.value).Refused?)
            && (m.Fine? && rest.Fine? && Fold(rest.value).Refused? ==> Fold(m.value).Refused?)
  {
    hide Fold, HexValue;
    if rest.Fine? {
      var lo, ms := Point(HexValue(r.lo.digits)), rest.value;
      if r.hi.None? {
        FoldPoint(lo, ms);
      } else {
        var hi := Point(HexValue(r.hi.value.digits));
        assert [lo] + ([Hyphen] + ([hi] + ms)) == [lo, Hyphen, hi] + ms;
        FoldRange(lo, hi, ms);
      }
    }
  }

  lemma FoldPoint(x: CharClass.Member, ms: seq<CharClass.Member>)
    requires x.Point? && (ms == [] || ms[0].Point?)
    ensures Fold([x] + ms) == Then(Part(x.cp, x.cp), Fold(ms))
  {
    assert ([x] + ms)[1..] == ms;
  }

  lemma FoldRange(x: CharClass.Member, y: CharClass.Member, ms: seq<CharClass.Member>)
    requires x.Point? && y.Point?
    ensures Fold([x, Hyphen, y] + ms)
         == if y.cp < x.cp then Refused(ReversedRange) else Then(Part(x.cp, y.cp), Fold(ms))
  {
    assert ([x, Hyphen, y] + ms)[3..] == ms;
  }

  // ---- the pattern cut into its pieces

  lemma {:induction false} PiecesCut(rs: seq<Range>)
    requires ValidRanges(rs)
    ensures forall p | p in Pieces(rs) :: Cuts("\\u", p)
  {
    if rs != [] {
      PiecesCut(rs[1..]);
      var r := rs[0];
      assert ValidRange(r);
      CodeCuts(r.lo);
      if r.hi.Some? { CodeCuts(r.hi.value); }
    }
  }

  lemma CodeCuts(c: Code)
    requires ValidCode(c)
    ensures Cuts("\\u", CodeText(c)) && Cuts("\\u", CodeText(c) + "-")
  {
    assert 'u' !in CodeText(c) && 'u' !in CodeText(c) + "-";
    CutsIfAbsent("\\u", CodeText(c));
    CutsIfAbsent("\\u", CodeText(c) + "-");
  }

  /** A pattern is cut into its members at each `\u`, its brackets and its caret taken off. */
  lemma PatternPieces(negated: bool, rs: seq<Range>)
    requires ValidRanges(rs) && rs != []
    ensures var pat := PatternText(negated, rs);
            var body := Before("]", After("[", pat));
            && pat != "[\\s\\S]"
            && HasPrefix("^", body) == negated && HasPrefix("[^", pat) == negated
            && Split("\\u", if negated then After("^", body) else body)[1..] == Pieces(rs)
  {
    hide Split, Join, Pieces, HasPrefix, After, Before, Cuts;
    var inner := Join("\\u", [""] + Pieces(rs));
    var body := (if negated then "^" else "") + inner;
    var pat := PatternText(negated, rs);
    AfterFirst("[", body + "]");
    assert pat == "[" + (body + "]");
    BeforeLast(']', body);
    NotAnything(rs, inner, pat);
    HasPrefixIff("^", body);
    HasPrefixIff("[^", pat);
    if negated {
      AfterFirst("^", inner);
      assert pat[..2] == "[^";
    } else {
      assert body == inner && body[..1] == [inner[0]];
      assert pat[..2][1] == inner[0];
    }
    PiecesCut(rs);
    assert Cuts("\\u", "") by { CutsIfAbsent("\\u", ""); }
    SplitOfJoin("\\u", [""] + Pieces(rs));
    assert ([""] + Pieces(rs))[1..] == Pieces(rs);
  }

  /** The text a class is written as: its pattern's members, one after another. */
  lemma PatternIsCut(negated: bool, rs: seq<Range>)
    requires ValidRanges(rs) && rs != []
    ensures ClassText(PatternText(negated, rs))
         == (if negated then "[^" else "[") + MembersText(Pieces(rs), false) + "]"
  {
    hide MembersText, PatternText, Pieces;
    PatternPieces(negated, rs);
  }

  /** Such a pattern is not the one that stands for every character. */
  lemma NotAnything(rs: seq<Range>, inner: string, pat: string)
    requires ValidRanges(rs) && rs != [] && inner == Join("\\u", [""] + Pieces(rs))
    ensures |inner| >= 2 && inner[0] == '\\' && inner[1] == 'u'
    ensures pat == "[" + inner + "]" || pat == "[" + ("^" + inner) + "]" ==> pat != "[\\s\\S]"
  {
    hide CodeText;
    assert ([""] + Pieces(rs))[1..] == Pieces(rs);
    assert Pieces(rs) != [];
    assert inner == "" + "\\u" + Join("\\u", Pieces(rs));
    var any := "[\\s\\S]";
    assert any[1] == '\\' && any[2] == 's';
  }

  // ---- the laws

  /** The pattern that stands for anything is written as the class of every code point. */
  lemma AnyIsRead()
    ensures ClassText("[\\s\\S]") == AtomText(Class(false, "#x0-#x10FFFF"))
    ensures Parts("#x0-#x10FFFF") == Fine([Part(0, 0x10_FFFF)])
    ensures Layout.SpacedAtom(Class(false, "#x0-#x10FFFF"))
  {
    hide Parts;
    AnyText();
    AnyParts();
  }

  lemma AnyText()
    ensures ClassText("[\\s\\S]") == AtomText(Class(false, "#x0-#x10FFFF"))
  {
    hide Split, MembersText;
    JoinedUp("[", "#x0-#x10FFFF", "]", "[#x0-#x10FFFF]");
  }

  lemma AnyParts()
    ensures Parts("#x0-#x10FFFF") == Fine([Part(0, 0x10_FFFF)])
  {
    hide Members, Fold;
    AnyMembers();
    FoldRange(Point(0), Point(MAX_CODE_POINT), []);
    NothingFolds();
    Text.Ends([Point(0), Hyphen, Point(MAX_CODE_POINT)]);
    Text.Ends([Part(0, MAX_CODE_POINT)]);
  }

  lemma AnyMembers()
    ensures Members("#x0-#x10FFFF") == Fine([Point(0), Hyphen, Point(MAX_CODE_POINT)])
  {
    hide Members, HexValue, CodeDigits;
    var d := "10FFFF";
    MaximumDigits();
    DigitsKept();
    CodeIsRead(d, "");
    JoinedUp("#x", d, "", "#x10FFFF");
    MembersOfNothing();
    Text.Ends([Point(MAX_CODE_POINT)]);
    HyphenIsRead("#x10FFFF");
    JoinedUp("-", "", "#x10FFFF", "-#x10FFFF");
    assert [Hyphen] + [Point(MAX_CODE_POINT)] == [Hyphen, Point(MAX_CODE_POINT)];
    CodeIsRead("0", "-#x10FFFF");
    JoinedUp("#x", "0", "-#x10FFFF", "#x0-#x10FFFF");
    assert [Point(0)] + [Hyphen, Point(MAX_CODE_POINT)] == [Point(0), Hyphen, Point(MAX_CODE_POINT)];
  }

  lemma JoinedUp(a: string, b: string, c: string, t: string)
    requires |t| == |a| + |b| + |c|
    requires forall i | 0 <= i < |t| ::
               t[i] == if i < |a| then a[i] else if i < |a| + |b| then b[i - |a|] else c[i - |a| - |b|]
    ensures a + b + c == t && a + c + b == a + (c + b) && (b == "" ==> a + c == t)
  {
  }

  lemma DigitsKept()
    ensures CodeDigits("10FFFF") == "10FFFF" && CodeDigits("0") == "0"
  {
    CapitalsKept("10FFFF");
    CapitalsKept("0");
  }

  lemma {:induction false} CapitalsKept(h: string)
    requires forall i | 0 <= i < |h| :: !('a' <= h[i] <= 'f')
    ensures Upper(h) == h
  {
    if h != "" { CapitalsKept(h[1..]); }
  }

  lemma HexStep(s: string, c: char)
    requires All(HexDigits, s) && IsHex(c)
    ensures All(HexDigits, s + [c]) && HexValue(s + [c]) == 16 * HexValue(s) + HexDigit(c)
  {
    assert (s + [c])[..|s|] == s;
  }

  lemma MaximumDigits()
    ensures HexValue("0") == 0 && HexValue("10FFFF") == MAX_CODE_POINT
  {
    HexStep("", '0');
    HexStep("", '1');
    HexStep(['1'], '0');
    HexStep(['1'] + ['0'], 'F');
    HexStep(['1'] + ['0'] + ['F'], 'F');
    HexStep(['1'] + ['0'] + ['F'] + ['F'], 'F');
    HexStep(['1'] + ['0'] + ['F'] + ['F'] + ['F'], 'F');
    Text.Ends(['0']);
    Text.Ends(['1']);
    assert "0" == ['0'] && "10FFFF" == ['1'] + ['0'] + ['F'] + ['F'] + ['F'] + ['F'];
  }

  lemma NothingFolds()
    ensures Fold([]) == Fine([])
  {
  }

  /**
   A class is written as text that holds its members and nothing else: the text is read back, with the
   same negation and the same list of ranges, exactly when each range's ends are code points in order.
   */
  lemma WrittenClassIsRead(negated: bool, rs: seq<Range>) returns (body: string)
    requires ValidRanges(rs) && rs != []
    ensures ClassText(PatternText(negated, rs)) == AtomText(Class(negated, body))
    ensures AllFit(rs) ==> Parts(body) == Fine(PartsIn(rs))
    ensures AllFit(rs) <==> Layout.SpacedAtom(Class(negated, body))
  {
    hide MembersText, Pieces, PatternText, ClassText, Marks, Members, Fold, PartsIn, AllFit;
    body := MembersText(Pieces(rs), false);
    PatternIsCut(negated, rs);
    MembersTextIsRead(rs, false);
    MarksFold(rs);
  }
}
