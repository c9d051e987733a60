/**
 What the Go reader accepts, as functions from the unread text to the construct read and the
 text after it. The contracts say that reading loses nothing: the construct's own text and
 the rest are the text read. `Scanner` is the reader itself.
 */
module Reader {
  import opened Wrappers
  import opened Text
  import opened CharClass
  import opened Syntax

  /** What a source may be refused for while it is read. */
  datatype Fault =
    | UnterminatedComment
    | UnclosedClass | EmptyClass | BadClass(why: CharFault)
    | UnterminatedString | ControlInString | EmptyString
    | UnclosedGroup
    | BadCodePoint(why: CharFault) | BareHash
    | SpecialSequence | Subtraction | IsoRepetition | DanglingPostfix
    | UnexpectedCharacter | BadName | ExpectedExpression
    | EmptyAlternative | LeadingComma | TrailingComma
    | ExpectedRuleName | ExpectedDefinition

  /** A construct and the text after it, or a fault and how much text is after its place. */
  datatype Read<+T> = Got(value: T, rest: string) | Bad(fault: Fault, left: nat)

  // ---- gaps

  /** Whether a text opens a comment, of either syntax. */
  predicate Opens(s: string) {
    Begins(s, '/', '*') || Begins(s, '(', '*')
  }

  /** Whether a gap goes on: whitespace, or a comment's opening. */
  predicate GapStarts(s: string) {
    Next(Spaces, s) || Opens(s)
  }

  /** The length of the whitespace character or whole comment a text begins with; 0 where there is none. */
  function GapStep(s: string): (n: nat)
    ensures n <= |s|
  {
    if Next(Spaces, s) then 1
    else if !Opens(s) then 0
    else
      var k := Find(s[2..], '*', if s[0] == '/' then '/' else ')');
      if k < 0 then 0 else k + 4
  }

  /** The longest gap a text begins with. */
  function Skip(s: string): (r: Read<string>)
    ensures r.Got? ==> s == r.value + r.rest && !GapStarts(r.rest)
    ensures r.Bad? ==> r.left <= |s|
  {
    var n := GapStep(s);
    if !GapStarts(s) then Got("", s)
    else if n == 0 then Bad(UnterminatedComment, |s|)
    else Widen(s, n, Skip(s[n..]))
  }

  lemma SkipUnfolds(s: string)
    ensures var n := GapStep(s);
            Skip(s) == if !GapStarts(s) then Got("", s)
                       else if n == 0 then Bad(UnterminatedComment, |s|)
                       else Widen(s, n, Skip(s[n..]))
  {
  }

  function Widen(s: string, n: nat, r: Read<string>): (w: Read<string>)
    requires n <= |s|
    requires r.Got? ==> s[n..] == r.value + r.rest
    ensures w.Got? <==> r.Got?
    ensures w.Got? ==> w.value == s[..n] + r.value && w.rest == r.rest && s == w.value + w.rest
    ensures w.Bad? ==> w == r
  {
    match r
    case Got(t, rest) => Got(s[..n] + t, rest)
    case Bad(f, l) => Bad(f, l)
  }

  /** A gap: whitespace and terminated comments, in any order. */
  predicate IsGap(t: string) {
    t == "" || (GapStep(t) > 0 && IsGap(t[GapStep(t)..]))
  }

  // ---- where a concatenation ends

  /** Whether a rule starts here: a name, then `::=` or a single `=`. */
  predicate RuleStarts(s: string) {
    var n := Run(NameChars, s);
    n > 0 && match Skip(s[n..])
             case Bad(_, _) => false
             case Got(_, r) => DefStarts(r) && !Begins(r, '=', '=')
  }

  /** Whether a text begins with `::=` or `=`. */
  predicate DefStarts(s: string) {
    (|s| >= 3 && s[0] == ':' && s[1] == ':' && s[2] == '=') || At(s, '=')
  }

  predicate IsTerminator(c: char) {
    c == '|' || c == ')' || c == ';'
  }

  predicate SeqEnds(s: string) {
    s == "" || IsTerminator(s[0]) || RuleStarts(s)
  }

  // ---- recursive descent

  /** A quoted literal, its opening quote already at the front. */
  function ReadQuoted(s: string): (r: Read<Atom>)
    requires s != ""
    ensures r.Got? ==> s == AtomText(r.value) + r.rest && |r.rest| < |s|
    ensures r.Bad? ==> r.left <= |s|
  {
    var q, t := s[0], s[1..];
    var n := Run(StringChars(q), t);
    if n == |t| then Bad(UnterminatedString, |s|)
    else if t[n] != q then Bad(ControlInString, |t| - n)
    else if n == 0 then Bad(EmptyString, |t| - 1)
    else
      CutAround(s, 1, n);
      Got(Quoted(q, t[..n]), t[n + 1..])
  }

  /** A character class, `[` already at the front. */
  function ReadClass(s: string): (r: Read<Atom>)
    requires s != "" && s[0] == '['
    ensures r.Got? ==> s == AtomText(r.value) + r.rest && |r.rest| < |s|
    ensures r.Bad? ==> r.left <= |s|
  {
    var neg := At(s[1..], '^');
    var k := if neg then 2 else 1;
    var t := s[k..];
    var n := Run(ClassChars, t);
    if n == |t| || t[n] != ']' then Bad(UnclosedClass, |t| - n)
    else if n == 0 then Bad(EmptyClass, |t| - 1)
    else
      match Parts(t[..n])
      case Refused(f) => Bad(BadClass(f), |t| - n - 1)
      case Fine(_) =>
        CutAround(s, k, n);
        assert s[..k] == if neg then "[^" else "[";
        Got(Class(neg, t[..n]), t[n + 1..])
  }

  /** A standalone code point, `#` already at the front. */
  function ReadHex(s: string): (r: Read<Atom>)
    requires s != "" && s[0] == '#'
    ensures r.Got? ==> s == AtomText(r.value) + r.rest && |r.rest| < |s|
    ensures r.Bad? ==> r.left <= |s|
  {
    if !Begins(s, '#', 'x') then Bad(BareHash, |s|)
    else
      var t := s[2..];
      var n := Run(HexDigits, t);
      if n == 0 then Bad(BadCodePoint(NoHexDigits), |t|)
      else
        match CodePoint(t[..n])
        case Refused(f) => Bad(BadCodePoint(f), |t| - n)
        case Fine(_) =>
          Cut(s, 2);
          Cut(t, n);
          Assoc("#x", t[..n], t[n..]);
          Got(Hex(t[..n]), t[n..])
  }

  function ReadName(s: string): (r: Read<Atom>)
    requires s != ""
    ensures r.Got? ==> s == AtomText(r.value) + r.rest && |r.rest| < |s|
    ensures r.Bad? ==> r.left <= |s|
  {
    var n := Run(NameChars, s);
    if n == 0 then Bad(UnexpectedCharacter, |s|)
    else if !ValidName(s[..n]) then Bad(BadName, |s| - n)
    else
      Cut(s, n);
      Got(Name(s[..n]), s[n..])
  }

  /** An atom, no gap before it. */
  function ReadAtom(s: string): (r: Read<Atom>)
    ensures r.Got? ==> s == AtomText(r.value) + r.rest && |r.rest| < |s|
    ensures r.Bad? ==> r.left <= |s|
    decreases |s|, 0
  {
    if s == "" then Bad(ExpectedExpression, 0)
    else
      var c := s[0];
      if c == '"' || c == '\'' then ReadQuoted(s)
      else if c == '[' then ReadClass(s)
      else if c == '(' then
        match ReadAlts(s[1..])
        case Bad(f, l) => Bad(f, l)
        case Got(alts, r) =>
          if !At(r, ')') then Bad(UnclosedGroup, |r|)
          else
            Cut(s, 1);
            Cut(r, 1);
            Assoc3("(", AltsText(alts), ")", r[1..]);
            Got(Paren(alts), r[1..])
      else if c == '#' then ReadHex(s)
      else if c == '?' then Bad(SpecialSequence, |s|)
      else if c == '-' then Bad(Subtraction, |s|)
      else if c == '{' || c == '}' then Bad(IsoRepetition, |s|)
      else if c == '*' || c == '+' then Bad(DanglingPostfix, |s|)
      else ReadName(s)
  }

  /** An atom and the run of postfix operators that touches it. */
  function ReadElem(s: string): (r: Read<Elem>)
    ensures r.Got? ==> s == ElemText(r.value) + r.rest && |r.rest| < |s|
    ensures r.Bad? ==> r.left <= |s|
    decreases |s|, 1
  {
    match ReadAtom(s)
    case Bad(f, l) => Bad(f, l)
    case Got(a, t) =>
      var n := Run(Postfixes, t);
      Cut(t, n);
      Assoc(AtomText(a), t[..n], t[n..]);
      Got(Elem(a, t[..n]), t[n..])
  }

  /** The items of a concatenation from here to its end, and the gap after them. */
  function ReadSeq(s: string, first: bool): (r: Read<Seq>)
    ensures r.Got? ==> s == SeqText(r.value) + r.rest && !GapStarts(r.rest) && SeqEnds(r.rest)
    ensures r.Got? && first ==> r.value.items != [] && |r.rest| < |s|
    ensures r.Bad? ==> r.left <= |s|
    decreases |s|, 3
  {
    match Skip(s)
    case Bad(f, l) => Bad(f, l)
    case Got(lead, s1) =>
      if SeqEnds(s1) then ReadEnd(lead, s1, first)
      else if s1[0] == ',' then ReadComma(lead, s1, first)
      else ReadItem(lead, None, s1)
  }

  /** The end of a concatenation, which must not be its start. */
  function ReadEnd(gap: string, t: string, first: bool): (r: Read<Seq>)
    ensures r.Got? ==> gap + t == SeqText(r.value) + r.rest && r.rest == t && !first
    ensures r.Bad? ==> r.left == |t|
  {
    Ends(gap);
    if first then Bad(EmptyAlternative, |t|) else Got(Seq([], gap), t)
  }

  lemma CommaGap(lead: string, t: string, gap: string, u: string)
    requires At(t, ',') && t[1..] == gap + u
    ensures GapOf(lead, Some(gap)) + u == lead + t
  {
    Head(t, ',');
    Assoc3(lead, ",", gap, u);
  }

  /** An item behind a comma, which neither begins a concatenation nor ends one. */
  function ReadComma(lead: string, t: string, first: bool): (r: Read<Seq>)
    requires At(t, ',')
    ensures r.Got? ==> lead + t == SeqText(r.value) + r.rest && !GapStarts(r.rest) && SeqEnds(r.rest)
    ensures r.Got? ==> r.value.items != [] && |r.rest| < |t| && !first
    ensures r.Bad? ==> r.left <= |t|
    decreases |t|, 0
  {
    if first then Bad(LeadingComma, |t|)
    else
      match Skip(t[1..])
      case Bad(f, l) => Bad(f, l)
      case Got(gap, u) =>
        if SeqEnds(u) then Bad(TrailingComma, |u|)
        else
          CommaGap(lead, t, gap, u);
          ReadItem(lead, Some(gap), u)
  }

  /** One item, its gap already read, and the items after it. */
  function ReadItem(lead: string, comma: Option<string>, t: string): (r: Read<Seq>)
    ensures r.Got? ==> GapOf(lead, comma) + t == SeqText(r.value) + r.rest
    ensures r.Got? ==> !GapStarts(r.rest) && SeqEnds(r.rest)
    ensures r.Got? ==> r.value.items != [] && |r.rest| < |t|
    ensures r.Bad? ==> r.left <= |t|
    decreases |t|, 2
  {
    match ReadElem(t)
    case Bad(f, l) => Bad(f, l)
    case Got(e, u) =>
      match ReadSeq(u, false)
      case Bad(f, l) => Bad(f, l)
      case Got(q, rest) =>
        SeqTextPrepend(Item(lead, comma, e), q);
        Assoc3(GapOf(lead, comma), ElemText(e), SeqText(q), rest);
        Got(Seq([Item(lead, comma, e)] + q.items, q.post), rest)
  }

  /** One or more concatenations with bars between them. */
  function ReadAlts(s: string): (r: Read<seq<Seq>>)
    ensures r.Got? ==> s == AltsText(r.value) + r.rest && |r.rest| < |s| && r.value != []
    ensures r.Got? ==> !GapStarts(r.rest) && SeqEnds(r.rest)
    ensures r.Bad? ==> r.left <= |s|
    decreases |s|, 4
  {
    match ReadSeq(s, true)
    case Bad(f, l) => Bad(f, l)
    case Got(q, t) =>
      match ReadMore(t)
      case Bad(f, l) => Bad(f, l)
      case Got(qs, rest) =>
        Assoc(SeqText(q), MoreText(qs), rest);
        assert ([q] + qs)[1..] == qs;
        Got([q] + qs, rest)
  }

  function ReadMore(s: string): (r: Read<seq<Seq>>)
    requires !GapStarts(s) && SeqEnds(s)
    ensures r.Got? ==> s == MoreText(r.value) + r.rest && |r.rest| <= |s|
    ensures r.Got? ==> !GapStarts(r.rest) && SeqEnds(r.rest) && !At(r.rest, '|')
    ensures r.Bad? ==> r.left <= |s|
    decreases |s|, 3
  {
    if !At(s, '|') then Got([], s)
    else
      match ReadSeq(s[1..], true)
      case Bad(f, l) => Bad(f, l)
      case Got(q, t) =>
        match ReadMore(t)
        case Bad(f, l) => Bad(f, l)
        case Got(qs, rest) =>
          Assoc3("|", SeqText(q), MoreText(qs), rest);
          assert ([q] + qs)[1..] == qs;
          Got([q] + qs, rest)
  }

  // ---- rules

  /** A rule, the gap before it already read. */
  function ReadProd(lead: string, s: string): (r: Read<Prod>)
    requires s != ""
    ensures r.Got? ==> lead + s == ProdText(r.value) + r.rest && |r.rest| < |s|
    ensures r.Bad? ==> r.left <= |s|
  {
    var n := Run(NameChars, s);
    if n == 0 then Bad(ExpectedRuleName, |s|)
    else if !ValidName(s[..n]) then Bad(BadName, |s| - n)
    else
      match Skip(s[n..])
      case Bad(f, l) => Bad(f, l)
      case Got(mid, t) =>
        Cut(s, n);
        Assoc3(lead, s[..n], mid, t);
        if DefStarts(t) then ReadBody(lead, s[..n], mid, t) else Bad(ExpectedDefinition, |t|)
  }

  lemma DefHead(t: string)
    requires DefStarts(t)
    ensures var d := DefText(t[0] == ':'); |d| <= |t| && t == d + t[|d|..]
  {
  }

  lemma EndHead(v: string)
    ensures v == EndText(At(v, ';')) + if At(v, ';') then v[1..] else v
  {
  }

  /** A rule from its `::=` or `=` on. */
  function ReadBody(lead: string, name: string, mid: string, t: string): (r: Read<Prod>)
    requires DefStarts(t)
    ensures r.Got? ==> lead + name + mid + t == ProdText(r.value) + r.rest && |r.rest| < |t|
    ensures r.Bad? ==> r.left <= |t|
  {
    var colons := t[0] == ':';
    var u := t[|DefText(colons)|..];
    match ReadAlts(u)
    case Bad(f, l) => Bad(f, l)
    case Got(alts, v) =>
      var semi := At(v, ';');
      var rest := if semi then v[1..] else v;
      DefHead(t);
      EndHead(v);
      ProdTextParts(lead, name, mid, DefText(colons), AltsText(alts), EndText(semi), rest);
      Got(Prod(lead, name, mid, colons, alts, semi), rest)
  }

  lemma ProdTextParts(a: string, b: string, c: string, d: string, e: string, f: string, g: string)
    ensures a + b + c + (d + (e + (f + g))) == (a + b + c + d + e + f) + g
  {
  }

  function ReadFile(s: string): (r: Read<File>)
    ensures r.Got? ==> s == FileText(r.value) && r.rest == ""
    ensures r.Bad? ==> r.left <= |s|
    decreases |s|
  {
    match Skip(s)
    case Bad(f, l) => Bad(f, l)
    case Got(lead, s1) =>
      if s1 == "" then Got(File([], lead), "")
      else
        match ReadProd(lead, s1)
        case Bad(f, l) => Bad(f, l)
        case Got(p, s2) =>
          match ReadFile(s2)
          case Bad(f, l) => Bad(f, l)
          case Got(file, _) =>
            assert ([p] + file.prods)[1..] == file.prods;
            Assoc(ProdText(p), ProdsText(file.prods), file.tail);
            Got(File([p] + file.prods, file.tail), "")
  }
}
