/**
 The notation's atoms but for groups, by the code points of their characters: exactly which texts are read as one,
 and what the others are refused for, and where.
 */
module Lexemes {
  import opened Text
  import opened CharClass
  import opened Grammar
  import opened Syntax
  import opened Reader
  import opened Legal
  import opened RoundTrip

  /** A letter or an underscore, and what else may go on a name: a digit, a full stop or a hyphen. */
  predicate BeginsName(c: char) {
    var n := c as int;
    65 <= n <= 90 || 97 <= n <= 122 || n == 95
  }

  predicate InName(c: char) {
    BeginsName(c) || 48 <= c as int <= 57 || c as int == 46 || c as int == 45
  }

  predicate HexadecimalDigit(c: char) {
    var n := c as int;
    48 <= n <= 57 || 65 <= n <= 70 || 97 <= n <= 102
  }

  /** Double or single. */
  predicate QuoteMark(q: char) {
    q as int == 34 || q as int == 39
  }

  predicate StringBody(q: char, b: string) {
    forall i | 0 <= i < |b| :: b[i] != q && b[i] as int >= 32
  }

  /** No closing bracket and no line feed. */
  predicate ClassBody(b: string) {
    forall i | 0 <= i < |b| :: b[i] as int != 93 && b[i] as int != 10
  }

  predicate HexBody(d: string) {
    forall i | 0 <= i < |d| :: HexadecimalDigit(d[i])
  }

  /** Whether an atom's text, with some text behind it, is one atom and no more. */
  predicate IsLexeme(a: Atom, rest: string)
    requires !a.Paren?
  {
    match a
    case Name(n) =>
      && n != "" && BeginsName(n[0]) && (forall i | 0 <= i < |n| :: InName(n[i]))
      && (rest != "" ==> !InName(rest[0]))
    case Quoted(q, b) => QuoteMark(q) && b != "" && StringBody(q, b)
    case Hex(d) =>
      d != "" && HexBody(d) && CodePoint(d).Fine? && (rest != "" ==> !HexadecimalDigit(rest[0]))
    case Class(neg, b) => b != "" && ClassBody(b) && Parts(b).Fine? && (!neg ==> b[0] != '^')
  }

  lemma CharactersAre(c: char)
    ensures IsNameStart(c) <==> BeginsName(c)
    ensures IsNameChar(c) <==> InName(c)
    ensures IsHex(c) <==> HexadecimalDigit(c)
  {
  }

  lemma BodiesAre(q: char, b: string)
    ensures All(StringChars(q), b) <==> StringBody(q, b)
    ensures All(ClassChars, b) <==> ClassBody(b)
    ensures All(HexDigits, b) <==> HexBody(b)
    ensures All(NameChars, b) <==> forall i | 0 <= i < |b| :: InName(b[i])
  {
  }

  /** The texts that are read as an atom are these. */
  lemma ReadIffLexeme(a: Atom, rest: string)
    requires !a.Paren?
    ensures ReadAtom(AtomText(a) + rest) == Got(a, rest) <==> IsLexeme(a, rest)
  {
    hide ReadAtom, All, Parts, HexValue, StringBody, ClassBody, HexBody;
    if ReadAtom(AtomText(a) + rest) == Got(a, rest) { AtomIsLegal(AtomText(a) + rest); }
    LexemeIsLegal(a, rest);
    if LegalAtom(a, rest) { ReadsAtom(a, rest); }
  }

  lemma LexemeIsLegal(a: Atom, rest: string)
    requires !a.Paren?
    ensures LegalAtom(a, rest) <==> IsLexeme(a, rest)
  {
    hide All, Parts, HexValue, StringBody, ClassBody, HexBody;
    match a
    case Name(n) =>
      BodiesAre('"', n);
    case Quoted(q, b) => BodiesAre(q, b);
    case Hex(d) =>
      BodiesAre('"', d);
    case Class(neg, b) => BodiesAre('"', b);
  }

  /** A code point is the character of that number; half of a surrogate pair is U+FFFD, the replacement. */
  lemma HexNames(d: string)
    requires d != "" && HexBody(d) && CodePoint(d).Fine?
    ensures var n := CodePoint(d).value;
            var e := EraseAtom(Hex(d));
            && e.Term? && |e.literal| == 1
            && e.literal[0] as int == if 0xD800 <= n <= 0xDFFF then 0xFFFD else n
  {
    hide HexValue, All;
    BodiesAre('"', d);
  }

  // ---- what is refused, and where

  /** A literal with no quote to end it, with a control character in it, or with nothing in it. */
  lemma QuotedFaults(q: char, b: string, rest: string)
    requires QuoteMark(q) && StringBody(q, b)
    ensures ReadAtom([q] + b) == Bad(UnterminatedString, |b| + 1)
    ensures rest != "" && rest[0] as int < 32 ==> ReadAtom([q] + (b + rest)) == Bad(ControlInString, |rest|)
    ensures ReadAtom([q] + ([q] + rest)) == Bad(EmptyString, |rest|)
  {
    hide ReadAtom, All;
    BodiesAre(q, b);
    BodiesAre(q, "");
    Ends(b);
    Ends([q] + rest);
    QuotedEnds(q, b, "");
    QuotedEnds(q, "", [q] + rest);
    if rest != "" && rest[0] as int < 32 { QuotedEnds(q, b, rest); }
  }

  lemma QuotedEnds(q: char, b: string, end: string)
    requires QuoteMark(q) && All(StringChars(q), b) && (end != "" ==> end[0] == q || end[0] as int < 32)
    ensures ReadAtom([q] + (b + end)) ==
            if end == "" then Bad(UnterminatedString, |b| + 1)
            else if end[0] != q then Bad(ControlInString, |end|)
            else if b == "" then Bad(EmptyString, |end| - 1)
            else Got(Quoted(q, b), end[1..])
  {
    hide Run, All, AtomText, ReadAtom;
    var t := b + end;
    RunIs(StringChars(q), b, end);
    assert end != "" ==> t[|b|] == end[0] && t[|b| + 1..] == end[1..];
    QuotedDispatch(q, t);
  }

  lemma QuotedDispatch(q: char, t: string)
    requires QuoteMark(q)
    ensures ReadAtom([q] + t) == ReadQuoted([q] + t) && ([q] + t)[1..] == t
  {
    hide ReadQuoted;
  }

  function Opening(neg: bool): string {
    if neg then "[^" else "["
  }

  lemma ClassOpening(neg: bool, t: string)
    requires !neg ==> !At(t, '^')
    ensures var s := Opening(neg) + t;
            ReadAtom(s) == ReadClass(s) && At(s, '[') && At(s[1..], '^') == neg && s[if neg then 2 else 1..] == t
  {
    hide ReadClass;
    var s := Opening(neg) + t;
    assert s[0] == '[' && (neg ==> s[1] == '^') && (!neg ==> s[1..] == t);
  }

  /** A class that no bracket closes on its line, one with nothing in it, and one whose body is refused. */
  lemma ClassFaults(neg: bool, b: string, rest: string)
    requires ClassBody(b) && (!neg ==> !At(b, '^'))
    ensures ReadAtom(Opening(neg) + b) == Bad(UnclosedClass, 0)
    ensures ReadAtom(Opening(neg) + (b + ("\n" + rest))) == Bad(UnclosedClass, |rest| + 1)
    ensures b == "" ==> ReadAtom(Opening(neg) + (b + ("]" + rest))) == Bad(EmptyClass, |rest|)
    ensures b != "" && Parts(b).Refused? ==>
              ReadAtom(Opening(neg) + (b + ("]" + rest))) == Bad(BadClass(Parts(b).fault), |rest|)
  {
    hide Parts, ReadAtom, All, ClassBody, AtomText, Opening;
    BodiesAre('"', b);
    Ends(b);
    ClassEnds(neg, b, "");
    ClassEnds(neg, b, "\n" + rest);
    ClassEnds(neg, b, "]" + rest);
  }

  lemma ClassEnds(neg: bool, b: string, end: string)
    requires All(ClassChars, b) && (!neg ==> !At(b, '^')) && (end != "" ==> end[0] == ']' || end[0] == '\n')
    ensures ReadAtom(Opening(neg) + (b + end)) ==
            if !At(end, ']') then Bad(UnclosedClass, |end|)
            else if b == "" then Bad(EmptyClass, |end| - 1)
            else match Parts(b)
                 case Refused(f) => Bad(BadClass(f), |end| - 1)
                 case Fine(_) => Got(Class(neg, b), end[1..])
  {
    hide Parts, Run, All, AtomText, ReadAtom;
    var t := b + end;
    RunIs(ClassChars, b, end);
    assert b != "" ==> t[0] == b[0];
    assert end != "" ==> t[|b|] == end[0] && t[|b| + 1..] == end[1..];
    ClassOpening(neg, t);
  }

  /** A code point with no `x`, with no digits, or past the maximum. */
  lemma HexFaults(d: string, rest: string)
    requires HexBody(d) && (rest != "" ==> !HexadecimalDigit(rest[0]))
    ensures !At(rest, 'x') ==> ReadAtom("#" + rest) == Bad(BareHash, |rest| + 1)
    ensures d == "" ==> ReadAtom("#x" + (d + rest)) == Bad(BadCodePoint(NoHexDigits), |rest|)
    ensures d != "" && CodePoint(d).Refused? ==>
              ReadAtom("#x" + (d + rest)) == Bad(BadCodePoint(CodePoint(d).fault), |rest|)
  {
    hide Run, CodePoint, All;
    BodiesAre('"', d);
    RunIs(HexDigits, d, rest);
    Behind("#x", d + rest);
    assert ("#x" + (d + rest))[0] == '#' && ("#x" + (d + rest))[1] == 'x';
    assert ("#" + rest)[0] == '#' && (rest != "" ==> ("#" + rest)[1] == rest[0]);
  }

  /** A construct of another notation is refused where it begins. */
  lemma OtherNotations(s: string)
    requires s != ""
    ensures s[0] == '?' ==> ReadAtom(s) == Bad(SpecialSequence, |s|)
    ensures s[0] == '-' ==> ReadAtom(s) == Bad(Subtraction, |s|)
    ensures s[0] == '{' || s[0] == '}' ==> ReadAtom(s) == Bad(IsoRepetition, |s|)
    ensures s[0] == '*' || s[0] == '+' ==> ReadAtom(s) == Bad(DanglingPostfix, |s|)
  {
    hide ReadAlts, ReadQuoted, ReadClass, ReadHex, ReadName, AtomText;
  }

  /** Whether a character begins an atom, or something that is refused by its own name. */
  predicate BeginsSomething(c: char) {
    || InName(c) || c == '"' || c == '\'' || c == '[' || c == '(' || c == '#' || c == '?'
    || c == '{' || c == '}' || c == '*' || c == '+'
  }

  lemma NothingBegins(s: string)
    requires s == "" || !BeginsSomething(s[0])
    ensures ReadAtom(s) == if s == "" then Bad(ExpectedExpression, 0) else Bad(UnexpectedCharacter, |s|)
  {
    hide ReadAlts, ReadQuoted, ReadClass, ReadHex, ReadName, AtomText;
    if s != "" { NoName(s); }
  }

  lemma NoName(s: string)
    requires s != "" && !InName(s[0])
    ensures ReadName(s) == Bad(UnexpectedCharacter, |s|)
  {
    hide Run;
    RunUnfolds(NameChars, s);
  }

  /** A run of name characters that begins as no name may. */
  lemma NameFaults(n: string, rest: string)
    requires n != "" && (forall i | 0 <= i < |n| :: InName(n[i])) && !BeginsName(n[0]) && n[0] != '-'
    requires rest != "" ==> !InName(rest[0])
    ensures ReadAtom(n + rest) == Bad(BadName, |rest|)
  {
    hide Run, All, ReadAlts, ReadQuoted, ReadClass, ReadHex;
    BodiesAre('"', n);
    RunIs(NameChars, n, rest);
    assert (n + rest)[0] == n[0];
  }

  // ---- concatenations, groups and rules that are refused

  /** A place with no item: at a concatenation's start, behind its comma, or a comma at its start. */
  lemma PlaceFaults(gap: string, gap': string, end: string, t: string)
    requires IsGap(gap) && IsGap(gap') && !GapStarts(end) && SeqEnds(end)
    ensures ReadSeq(gap + end, true) == Bad(EmptyAlternative, |end|)
    ensures ReadSeq(gap + ("," + t), true) == Bad(LeadingComma, |t| + 1)
    ensures ReadSeq(gap + ("," + (gap' + end)), false) == Bad(TrailingComma, |end|)
  {
    hide Skip, IsGap, GapStarts, SeqEnds, ReadItem, SeqText;
    SkipGap(gap, end);
    CommaBehind(gap, t);
    CommaBehind(gap, gap' + end);
    SkipGap(gap', end);
    Push(',', gap' + end);
  }

  lemma CommaBehind(gap: string, t: string)
    requires IsGap(gap)
    ensures Skip(gap + ("," + t)) == Got(gap, "," + t) && !SeqEnds("," + t) && ("," + t)[0] == ','
  {
    hide Skip, IsGap;
    Push(',', t);
    RunUnfolds(NameChars, "," + t);
    SkipGap(gap, "," + t);
  }

  /** A group that is not closed where its alternatives end. */
  lemma GroupFaults(s: string)
    requires ReadAlts(s).Got? && !At(ReadAlts(s).rest, ')')
    ensures ReadAtom("(" + s) == Bad(UnclosedGroup, |ReadAlts(s).rest|)
  {
    hide ReadAlts, AltsText, ReadQuoted, ReadClass, ReadHex, ReadName;
    Push('(', s);
  }

  /** A rule begins with a run of name characters that `::=` or a single `=` comes behind. */
  lemma RuleStartsIff(n: string, gap: string, t: string)
    requires n != "" && (forall i | 0 <= i < |n| :: InName(n[i])) && IsGap(gap) && !GapStarts(t)
    requires gap + t != "" ==> !InName((gap + t)[0])
    ensures RuleStarts(n + (gap + t)) <==> "::=" <= t || ("=" <= t && !("==" <= t))
  {
    hide Skip, IsGap, GapStarts, Run, All;
    BodiesAre('"', n);
    RunIs(NameChars, n, gap + t);
    SkipGap(gap, t);
    RuleStartsAt(n + (gap + t), |n|, t);
  }

  lemma RuleStartsAt(s: string, n: nat, t: string)
    requires 0 < n <= |s| && Run(NameChars, s) == n && Skip(s[n..]).Got? && Skip(s[n..]).rest == t
    ensures RuleStarts(s) <==> "::=" <= t || ("=" <= t && !("==" <= t))
  {
    hide Run, Skip;
    DefinitionIs(t);
  }

  lemma DefinitionIs(t: string)
    ensures DefStarts(t) && !Begins(t, '=', '=') <==> "::=" <= t || ("=" <= t && !("==" <= t))
  {
  }

  /** Where a rule should begin and no name does; and where a name has no definition behind it. */
  lemma RuleFaults(lead: string, n: string, gap: string, t: string)
    requires IsGap(gap) && !GapStarts(t) && (t == "" || !(("=" <= t) || ("::=" <= t)))
    requires n != "" && BeginsName(n[0]) && (forall i | 0 <= i < |n| :: InName(n[i]))
    requires gap + t != "" ==> !InName((gap + t)[0])
    ensures t != "" && !InName(t[0]) ==> ReadProd(lead, t) == Bad(ExpectedRuleName, |t|)
    ensures ReadProd(lead, n + (gap + t)) == Bad(ExpectedDefinition, |t|)
  {
    hide Skip, IsGap, GapStarts, ReadBody, Run, All;
    BodiesAre('"', n);
    RunIs(NameChars, n, gap + t);
    SkipGap(gap, t);
    if t != "" && !InName(t[0]) { RunUnfolds(NameChars, t); }
  }
}
