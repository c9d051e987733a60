/**
 The Go reader itself: a scanner that walks the source one character at a time, keeping its line
 and column, and builds the IR as it goes. Every method is proved against `Reader`: same
 construct, same place after it, same fault at the same line and column.
 */
module Scanner {
  import opened Wrappers
  import opened Text
  import opened CharClass
  import opened Grammar
  import opened Syntax
  import opened Reader
  import opened Nullable
  import opened Steps

  /** A fault and where it is reported. */
  datatype ParseError = ParseError(fault: Fault, line: nat, col: nat)

  datatype Outcome<+T> = Ok(value: T) | Err(error: ParseError)

  function FaultAt(src: string, f: Fault, left: nat): ParseError
    requires left <= |src|
  {
    ParseError(f, LineAt(src, |src| - left), ColAt(src, |src| - left))
  }

  /** Where the scanner stood when a node began. */
  datatype Mark = Mark(i: nat, line: nat, col: nat)

  class Scanner {
    const src: string
    var i: nat
    var line: nat
    var col: nat

    constructor (src: string)
      ensures this.src == src && i == 0 && Valid()
    {
      this.src := src;
      i, line, col := 0, 1, 1;
    }

    /** The line and column always agree with the offset. */
    ghost predicate Valid()
      reads this
    {
      i <= |src| && line == LineAt(src, i) && col == ColAt(src, i)
    }

    predicate Eof()
      reads this
    {
      i >= |src|
    }

    /** The character at hand; NUL past the end. */
    function Peek(): char
      reads this
    {
      if Eof() then '\0' else src[i]
    }

    method Advance(n: nat)
      requires Valid()
      modifies this
      ensures Valid()
      ensures i == if old(i) + n <= |src| then old(i) + n else |src|
    {
      var k := 0;
      while k < n && !Eof()
        invariant Valid() && k <= n && i == old(i) + k
      {
        if src[i] == '\n' {
          line := line + 1;
          col := 1;
        } else {
          col := col + 1;
        }
        i := i + 1;
        k := k + 1;
      }
    }

    /** Steps over the characters of one kind. */
    method AdvanceWhile(kind: Kind)
      requires Valid()
      modifies this
      ensures Valid()
      ensures i == old(i) + Run(kind, Tail(src, old(i)))
    {
      hide Run, LineAt, ColAt;
      RunUnfolds(kind, Tail(src, i));
      while !Eof() && Is(kind, Peek())
        invariant Valid() && old(i) <= i
        invariant Run(kind, Tail(src, old(i))) == i - old(i) + Run(kind, Tail(src, i))
        decreases |src| - i
      {
        TailDrop(src, i, 1);
        RunUnfolds(kind, Tail(src, i));
        Advance(1);
      }
      RunUnfolds(kind, Tail(src, i));
    }

    function TakeMark(): Mark
      reads this
    {
      Mark(i, line, col)
    }

    function SpanFrom(m: Mark): Option<Span>
      reads this
    {
      Some(Span(m.i, i, m.line, m.col))
    }

    function Fail(f: Fault): ParseError
      reads this
    {
      ParseError(f, line, col)
    }

    function FailAt(m: Mark, f: Fault): ParseError {
      ParseError(f, m.line, m.col)
    }

    /** One turn of the loop below: a whitespace character or a whole comment, if one is at hand. */
    method SkipStep() returns (more: bool, e: Option<ParseError>)
      requires Valid()
      modifies this
      ensures Valid() && i == old(i) + GapStep(Tail(src, old(i)))
      ensures more == (GapStep(Tail(src, old(i))) > 0)
      ensures e == if !more && GapStarts(Tail(src, i)) then Some(FaultAt(src, UnterminatedComment, |src| - i)) else None
    {
      hide Find, LineAt, ColAt;
      more, e := false, None;
      if Eof() { return; }
      var s := src[i..];
      if IsSpace(Peek()) {
        Advance(1);
        more := true;
      } else if Begins(s, '/', '*') {
        var end := Find(s[2..], '*', '/');
        if end < 0 { return false, Some(Fail(UnterminatedComment)); }
        Advance(2 + end + 2);
        more := true;
      } else if Begins(s, '(', '*') {
        var end := Find(s[2..], '*', ')');
        if end < 0 { return false, Some(Fail(UnterminatedComment)); }
        Advance(2 + end + 2);
        more := true;
      }
    }

    /** Takes turns of the loop until nothing skippable is at hand. */
    method SkipSpace() returns (e: Option<ParseError>)
      requires Valid()
      modifies this
      ensures Valid() && old(i) <= i
      ensures match Skip(Tail(src, old(i)))
              case Got(gap, rest) => e.None? && Tail(src, i) == rest && i == old(i) + |gap|
              case Bad(f, left) => e == Some(FaultAt(src, f, left))
    {
      hide Skip, GapStep, GapStarts;
      var more := true;
      while more
        invariant Valid() && old(i) <= i
        invariant SkippedTo(src, old(i), i)
        invariant !more ==> GapStep(Tail(src, i)) == 0 && !GapStarts(Tail(src, i))
        decreases |src| - i, more
      {
        ghost var j := i;
        more, e := SkipStep();
        if more { GapSkipped(src, old(i), j, i); } else { GapDone(src, old(i), i); }
        if e.Some? { return; }
      }
      SkipEnds(src, old(i), i);
      e := None;
    }

    // ---- terminals

    /** A character class, the scanner at its `[`. */
    method ParseCharClass() returns (r: Outcome<Element>)
      requires Valid() && At(Tail(src, i), '[')
      modifies this
      ensures Valid() && old(i) <= i
      ensures AtomDone(ReadClass(Tail(src, old(i))), r)
    {
      hide ReadClass, Run, Parts, LineAt, ColAt, AltsText, LocAlts, Tail;
      TailAt(src, i, '[');
      var m := TakeMark();
      Advance(1);
      var negated := false;
      if Peek() == '^' {
        negated := true;
        Advance(1);
      }
      var bodyStart := i;
      AdvanceWhile(ClassChars);
      var bodyEnd := i;
      ReadClassAt(src, m.i, negated, bodyStart, bodyEnd);
      if Eof() || Peek() != ']' { return Err(Fail(UnclosedClass)); }
      var body := src[bodyStart..bodyEnd];
      Advance(1);
      if body == "" { return Err(Fail(EmptyClass)); }
      var parts := PartsOfBody(body);
      if parts.Refused? { return Err(Fail(BadClass(parts.fault))); }
      r := Ok(Regex(negated, parts.value, SpanFrom(m)));
    }

    // ---- what a reader's result means for the scanner that has read it

    ghost predicate AtomDone(a: Read<Atom>, r: Outcome<Element>)
      requires i <= |src|
      reads this
    {
      match a
      case Bad(f, left) => left <= |src| && r == Err(FaultAt(src, f, left))
      case Got(x, rest) =>
        var n := |AtomText(x)|;
        n <= i && rest == Tail(src, i) && r == Ok(LocAtom(x, src, i - n))
    }

    ghost predicate ElemDone(a: Read<Elem>, r: Outcome<Element>)
      requires i <= |src|
      reads this
    {
      match a
      case Bad(f, left) => left <= |src| && r == Err(FaultAt(src, f, left))
      case Got(x, rest) =>
        var n := |ElemText(x)|;
        n <= i && rest == Tail(src, i) && r == Ok(LocElem(x, src, i - n))
    }

    ghost predicate SeqDone(a: Read<Seq>, from: nat, r: Outcome<Sequence>)
      requires i <= |src|
      reads this
    {
      match a
      case Bad(f, left) => left <= |src| && r == Err(FaultAt(src, f, left))
      case Got(q, rest) => rest == Tail(src, i) && r == Ok(Sequence(AllItems(src, from, q)))
    }

    ghost predicate AltsDone(a: Read<seq<Seq>>, from: nat, r: Outcome<seq<Sequence>>)
      requires i <= |src|
      reads this
    {
      match a
      case Bad(f, left) => left <= |src| && r == Err(FaultAt(src, f, left))
      case Got(alts, rest) => rest == Tail(src, i) && r == Ok(AllAlts(src, from, alts))
    }

    // ---- recursive descent

    /** The body of a literal: to its quote, a control character, or the end of the source. */
    method ScanString(quote: char)
      requires Valid()
      modifies this
      ensures Valid()
      ensures i == old(i) + Run(StringChars(quote), Tail(src, old(i)))
    {
      hide Run, LineAt, ColAt;
      while !Eof() && Peek() != quote
        invariant Valid() && old(i) <= i
        invariant Run(StringChars(quote), Tail(src, old(i))) == i - old(i) + Run(StringChars(quote), Tail(src, i))
        decreases |src| - i
      {
        RunUnfolds(StringChars(quote), Tail(src, i));
        if Peek() < ' ' { return; }
        TailDrop(src, i, 1);
        Advance(1);
      }
      RunUnfolds(StringChars(quote), Tail(src, i));
    }

    /** A quoted literal, the scanner at its opening quote. */
    method ParseString() returns (r: Outcome<Element>)
      requires Valid() && i < |src|
      modifies this
      ensures Valid() && old(i) < i
      ensures AtomDone(ReadQuoted(Tail(src, old(i))), r)
    {
      hide ReadQuoted, Run, LineAt, ColAt, AltsText, LocAlts;
      var m := TakeMark();
      var quote := Peek();
      Advance(1);
      var start := i;
      ScanString(quote);
      ReadQuotedAt(src, m.i, i);
      if Eof() { return Err(FailAt(m, UnterminatedString)); }
      if Peek() != quote { return Err(Fail(ControlInString)); }
      var lit := src[start..i];
      Advance(1);
      if lit == "" { return Err(Fail(EmptyString)); }
      r := Ok(Term(lit, SpanFrom(m)));
    }

    /** A code point, the scanner at its `#`. */
    method ParseHex() returns (r: Outcome<Element>)
      requires Valid() && At(Tail(src, i), '#')
      modifies this
      ensures Valid() && old(i) <= i
      ensures AtomDone(ReadHex(Tail(src, old(i))), r)
    {
      hide Run, HexValue, LineAt, ColAt, AltsText, LocAlts;
      var m := TakeMark();
      if !Begins(src[i..], '#', 'x') { return Err(Fail(BareHash)); }
      Advance(2);
      var start := i;
      AdvanceWhile(HexDigits);
      ReadHexAt(src, m.i, i);
      if i == start { return Err(Fail(BadCodePoint(NoHexDigits))); }
      var cp := CodePoint(src[start..i]);
      if cp.Refused? { return Err(Fail(BadCodePoint(cp.fault))); }
      r := Ok(Term([CharOf(cp.value)], SpanFrom(m)));
    }

    method ParseName() returns (r: Outcome<Element>)
      requires Valid() && i < |src|
      modifies this
      ensures Valid() && old(i) <= i
      ensures AtomDone(ReadName(Tail(src, old(i))), r)
    {
      hide ReadName, Run, LineAt, ColAt, AltsText, LocAlts;
      var m := TakeMark();
      AdvanceWhile(NameChars);
      ReadNameAt(src, m.i, i);
      if i == m.i { return Err(Fail(UnexpectedCharacter)); }
      var name := src[m.i..i];
      if !ValidName(name) { return Err(Fail(BadName)); }
      r := Ok(Ref(name, SpanFrom(m)));
    }

    /** Whichever atom the character at hand begins. */
    method ParseAtom() returns (r: Outcome<Element>)
      requires Valid()
      modifies this
      ensures Valid() && old(i) <= i
      ensures match Skip(Tail(src, old(i)))
              case Bad(f, left) => r == Err(FaultAt(src, f, left))
              case Got(_, s) => AtomDone(ReadAtom(s), r)
      ensures r.Ok? ==> old(i) < i
      decreases |src| - i, 1
    {
      hide Skip, ReadAtom, ReadQuoted, ReadClass, ReadHex, ReadName, LineAt, ColAt, AltsText, LocAlts, GapStarts;
      var e := SkipSpace();
      if e.Some? { return Err(e.value); }
      if Eof() { ReadAtomEnd(); return Err(Fail(ExpectedExpression)); }
      var c := Peek();
      ReadAtomAt(src, i);
      if c == '"' || c == '\'' {
        r := ParseString();
      } else if c == '[' {
        r := ParseCharClass();
      } else if c == '(' {
        r := ParseGroup();
      } else if c == '#' {
        r := ParseHex();
      } else if c == '?' {
        r := Err(Fail(SpecialSequence));
      } else if c == '-' {
        r := Err(Fail(Subtraction));
      } else if c == '{' || c == '}' {
        r := Err(Fail(IsoRepetition));
      } else if c == '*' || c == '+' {
        r := Err(Fail(DanglingPostfix));
      } else {
        r := ParseName();
      }
    }

    /** A group, the scanner at its `(`. */
    method ParseGroup() returns (r: Outcome<Element>)
      requires Valid() && At(Tail(src, i), '(')
      modifies this
      ensures Valid() && old(i) <= i
      ensures AtomDone(ReadAtom(Tail(src, old(i))), r)
      decreases |src| - i, 0
    {
      hide Skip, ReadAtom, ReadAlts, LineAt, ColAt, AltsText, LocAlts, GapStarts, Tail;
      var m := TakeMark();
      TailAt(src, i, '(');
      Advance(1);
      var alts := ParseAlts();
      ghost var a := ReadAlts(Tail(src, m.i + 1));
      if alts.Err? {
        ReadParenBad(src, m.i, a.fault, a.left);
        return Err(alts.error);
      }
      ReadParenAt(src, m.i, i, a.value);
      SkipNone(Tail(src, i));
      TailAt(src, i, ')');
      var e := SkipSpace();
      if e.Some? { return Err(e.value); }
      if Peek() != ')' { return Err(Fail(UnclosedGroup)); }
      Advance(1);
      r := Ok(Group(alts.value, SpanFrom(m)));
    }

    /** An atom with the operators that touch it. */
    method ParseElem() returns (r: Outcome<Element>)
      requires Valid()
      modifies this
      ensures Valid() && old(i) <= i
      ensures match Skip(Tail(src, old(i)))
              case Bad(f, left) => r == Err(FaultAt(src, f, left))
              case Got(_, s) => ElemDone(ReadElem(s), r)
      ensures r.Ok? ==> old(i) < i
      decreases |src| - i, 2
    {
      hide Skip, ReadAtom, ReadElem, Run, LineAt, ColAt, AtomText, LocAtom, Wrap, Tail;
      ghost var from := i;
      r := ParseAtom();
      if r.Err? {
        if Skip(Tail(src, from)).Got? {
          var s := Skip(Tail(src, from)).rest;
          ReadElemBad(s, ReadAtom(s).fault, ReadAtom(s).left);
        }
        return;
      }
      ghost var p := i;
      ghost var s := Skip(Tail(src, from)).rest;
      ghost var a := ReadAtom(s).value;
      var el := ParsePosts(r.value);
      SkipTail(src, from);
      AtomInPlace(src, from + |Skip(Tail(src, from)).value|, p, a);
      ReadElemAt(src, p - |AtomText(a)|, p, i, a);
      r := Ok(el);
    }

    /** The run of postfix operators at hand, each wrapped around what is before it. */
    method ParsePosts(atom: Element) returns (el: Element)
      requires Valid()
      modifies this
      ensures Valid() && old(i) <= i
      ensures i == old(i) + Run(Postfixes, Tail(src, old(i)))
      ensures el == Wrap(atom, src[old(i)..i])
    {
      hide Run, LineAt, ColAt, Wrap, Tail;
      el := atom;
      ghost var p := i;
      assert src[p..i] == "";
      WrapNone(el);
      while !Eof() && IsPostfix(Peek())
        invariant Valid() && p <= i && el == Wrap(atom, src[p..i])
        invariant Run(Postfixes, Tail(src, p)) == i - p + Run(Postfixes, Tail(src, i))
        decreases |src| - i
      {
        var c := Peek();
        PostStep(src, p, i);
        WrapMore(atom, src[p..i], c);
        Advance(1);
        el := if c == '?' then Opt(el) else if c == '*' then Star(el) else Plus(el);
      }
      PostEnd(src, i);
    }

    /** Looks past the gap for an end of the concatenation, then puts the scanner back. */
    method AtSeqEnd() returns (end: bool)
      requires Valid()
      modifies this
      ensures Valid() && i == old(i) && line == old(line) && col == old(col)
      ensures end == SeqEnds(Tail(src, i))
    {
      hide Skip, Run, LineAt, ColAt, GapStarts;
      if Eof() { return true; }
      if IsTerminator(Peek()) { return true; }
      var save := TakeMark();
      AdvanceWhile(NameChars);
      SeqEndsAt(src, save.i, i);
      if i == save.i { return false; }
      var e := SkipSpace();
      end := e.None? && DefStarts(src[i..]) && !Begins(src[i..], '=', '=');
      i, line, col := save.i, save.line, save.col;
    }

    /** What stands before an item: whitespace and a comma. Answers whether the concatenation is over. */
    method ParseGap(first: bool) returns (r: Outcome<bool>)
      requires Valid()
      modifies this
      ensures Valid() && old(i) <= i
      ensures match ReadGap(Tail(src, old(i)), first)
              case Faulty(f, left) => r == Err(FaultAt(src, f, left))
              case Over(_, rest) => r == Ok(true) && rest == Tail(src, i)
              case Goes(_, _, text) => r == Ok(false) && text == Tail(src, i)
    {
      hide Skip, SeqEnds, LineAt, ColAt, GapStarts;
      var e := SkipSpace();
      if e.Some? { return Err(e.value); }
      var end := AtSeqEnd();
      if end {
        return if first then Err(Fail(EmptyAlternative)) else Ok(true);
      }
      NotEnd(Tail(src, i));
      if Peek() == ',' {
        if first { return Err(Fail(LeadingComma)); }
        TailDrop(src, i, 1);
        Advance(1);
        e := SkipSpace();
        if e.Some? { return Err(e.value); }
        end := AtSeqEnd();
        if end { return Err(Fail(TrailingComma)); }
      }
      r := Ok(false);
    }

    /** A concatenation, to whatever ends it. */
    method ParseSeq() returns (r: Outcome<Sequence>)
      requires Valid()
      modifies this
      ensures Valid() && old(i) <= i
      ensures SeqDone(ReadSeq(Tail(src, old(i)), true), old(i), r)
      decreases |src| - i, 3
    {
      hide Skip, ReadSeq, ReadElem, ReadGap, SeqEnds, LineAt, ColAt, GapStarts, SeqSoFar, LocElem, ElemText;
      ghost var from := i;
      var acc: seq<Element> := [];
      var first := true;
      SeqStarts(src, from);
      while true
        invariant Valid() && from <= i
        invariant SeqSoFar(src, from, i, first, acc)
        decreases |src| - i
      {
        ghost var g := i;
        var over := ParseGap(first);
        if over.Err? {
          GapFault(src, from, g, first, acc);
          return Err(over.error);
        }
        if over.value {
          GapOver(src, from, g, first, acc);
          return Ok(Sequence(acc));
        }
        ghost var j := i;
        SkipNone(Tail(src, j));
        var el := ParseElem();
        if el.Err? {
          ItemFault(src, from, g, first, acc, ReadElem(Tail(src, j)).fault, ReadElem(Tail(src, j)).left);
          return Err(el.error);
        }
        SeqStep(src, from, g, first, acc, j, ReadElem(Tail(src, j)).value, i);
        acc := acc + [el.value];
        first := false;
      }
    }

    /** Concatenations with bars between them. */
    method ParseAlts() returns (r: Outcome<seq<Sequence>>)
      requires Valid()
      modifies this
      ensures Valid() && old(i) <= i
      ensures AltsDone(ReadAlts(Tail(src, old(i))), old(i), r)
      decreases |src| - i, 4
    {
      hide Skip, ReadSeq, ReadAlts, SeqEnds, LineAt, ColAt, GapStarts, AltsSoFar, AllItems, AllAlts;
      ghost var from := i;
      var alts: seq<Sequence> := [];
      AltsStart(src, from);
      while true
        invariant Valid() && from <= i
        invariant AltsSoFar(src, from, i, alts)
        decreases |src| - i
      {
        ghost var g := i;
        var q := ParseSeq();
        ghost var a := ReadSeq(Tail(src, g), true);
        if q.Err? {
          AltsFault(src, from, g, alts, a.fault, a.left);
          return Err(q.error);
        }
        SkipNone(Tail(src, i));
        var e := SkipSpace();
        assert e.None?;
        if Peek() != '|' {
          AltsEnd(src, from, g, alts, a.value, i);
          return Ok(alts + [q.value]);
        }
        AltsStep(src, from, g, alts, a.value, i);
        Advance(1);
        alts := alts + [q.value];
      }
    }

    // ---- rules

    /** A rule, the gap before it already behind the scanner. */
    method ParseProd(ghost lead: string) returns (r: Outcome<Production>)
      requires Valid() && i < |src| && |lead| <= i
      modifies this
      ensures Valid() && old(i) <= i
      ensures match ReadProd(lead, Tail(src, old(i)))
              case Bad(f, left) => left <= |src| && r == Err(FaultAt(src, f, left))
              case Got(p, rest) => rest == Tail(src, i) && old(i) < i && r == Ok(LocProd(p, src, old(i) - |lead|))
    {
      hide Skip, Run, ReadAlts, ReadProd, ReadBody, LineAt, ColAt, GapStarts, LocProd, ProdText, AllAlts, Tail;
      hide All, DefText;
      var m := TakeMark();
      AdvanceWhile(NameChars);
      ReadProdAt(src, lead, m.i, i - m.i);
      if i == m.i { return Err(Fail(ExpectedRuleName)); }
      var name := src[m.i..i];
      var nameSp := SpanFrom(m);
      if !ValidName(name) { return Err(Fail(BadName)); }
      TailIs(src, i);
      var e := SkipSpace();
      if e.Some? { return Err(e.value); }
      TailIs(src, i);
      if !DefStarts(src[i..]) { return Err(Fail(ExpectedDefinition)); }
      ghost var mid := Skip(Tail(src, m.i + |name|)).value;
      ghost var d := i;
      var alts := ParseBody(lead, name, mid);
      if alts.Err? { return Err(alts.error); }
      ghost var p := ReadBody(lead, name, mid, Tail(src, d)).value;
      ProdBuilt(src, m.i - |lead|, p, m.i, d + |DefText(p.colons)|);
      r := Ok(Production(name, alts.value, nameSp));
    }

    /** A rule from its `::=` or `=` on, and the `;` that may end it. */
    method ParseBody(ghost lead: string, ghost name: string, ghost mid: string)
      returns (r: Outcome<seq<Sequence>>)
      requires Valid() && DefStarts(Tail(src, i))
      modifies this
      ensures Valid() && old(i) <= i
      ensures match ReadBody(lead, name, mid, Tail(src, old(i)))
              case Bad(f, left) => left <= |src| && r == Err(FaultAt(src, f, left))
              case Got(p, rest) =>
                && rest == Tail(src, i) && old(i) < i
                && p.lead == lead && p.name == name && p.mid == mid
                && r == Ok(AllAlts(src, old(i) + |DefText(p.colons)|, p.alts))
    {
      hide Skip, ReadAlts, ReadBody, LineAt, ColAt, GapStarts, AltsText, LocAlts, AllAlts, Tail;
      ReadBodyAt(src, lead, name, mid, i);
      TailAt(src, i, ':');
      Advance(if Peek() == ':' then 3 else 1);
      r := ParseAlts();
      if r.Err? { return; }
      SkipSemi();
    }

    /** The `;` that may end a rule, no gap left before it. */
    method SkipSemi()
      requires Valid() && !GapStarts(Tail(src, i))
      modifies this
      ensures Valid() && old(i) <= i
      ensures var v := Tail(src, old(i)); Tail(src, i) == if At(v, ';') then v[1..] else v
    {
      hide Skip, LineAt, ColAt, GapStarts, Tail;
      SkipNone(Tail(src, i));
      TailAt(src, i, ';');
      var e := SkipSpace();
      assert e.None?;
      TailAt(src, i, ';');
      if !Eof() && Peek() == ';' {
        TailDrop(src, i, 1);
        Advance(1);
      }
    }

    /** Rules, one after another, to the end of the source. */
    method ParseProds() returns (r: Outcome<seq<Production>>)
      requires Valid() && i == 0
      modifies this
      ensures match ReadFile(src)
              case Bad(f, left) => r == Err(FaultAt(src, f, left))
              case Got(file, _) => r == Ok(LocProds(file.prods, src, 0))
    {
      hide Skip, ReadFile, ReadProd, LineAt, ColAt, GapStarts, LocProds, LocProd, ProdsSoFar;
      var prods: seq<Production> := [];
      ProdsStart(src);
      while true
        invariant Valid()
        invariant ProdsSoFar(src, i, prods)
        decreases |src| - i
      {
        ghost var g := i;
        ReadFileAt(Tail(src, g));
        var e := SkipSpace();
        if e.Some? {
          ProdsFault(src, g, prods, Skip(Tail(src, g)).fault, Skip(Tail(src, g)).left);
          return Err(e.value);
        }
        ghost var lead := Skip(Tail(src, g)).value;
        if Eof() {
          assert Tail(src, i) == "";
          ProdsEnd(src, g, prods, lead);
          return Ok(prods);
        }
        ghost var j := i;
        var p := ParseProd(lead);
        ghost var a := ReadProd(lead, Tail(src, j));
        if p.Err? {
          ProdsFault(src, g, prods, a.fault, a.left);
          return Err(p.error);
        }
        ProdsStep(src, g, prods, lead, j, a.value, i);
        prods := prods + [p.value];
      }
    }
  }

  /** A class body's members, and then its ranges. */
  method PartsOfBody(body: string) returns (r: Checked<seq<Part>>)
    ensures r == Parts(body)
  {
    hide Members, Fold;
    PartsUnfold(body);
    var items := MembersOf(body);
    if items.Refused? { return Refused(items.fault); }
    r := FoldMembers(items.value);
  }

  /** What a class body lists. */
  method MembersOf(body: string) returns (r: Checked<seq<Member>>)
    ensures r == Members(body)
  {
    hide Members, Run, CodePoint, MembersSoFar;
    var items: seq<Member> := [];
    var i := 0;
    MembersStart(body);
    while i < |body|
      invariant i <= |body| && MembersSoFar(body, i, items)
    {
      if body[i] == '#' && i + 1 < |body| && body[i + 1] == 'x' {
        var j := i + 2;
        while j < |body| && IsHex(body[j])
          invariant i + 2 <= j <= |body|
          invariant Run(HexDigits, Tail(body, i + 2)) == j - (i + 2) + Run(HexDigits, Tail(body, j))
        {
          RunUnfolds(HexDigits, Tail(body, j));
          TailDrop(body, j, 1);
          j := j + 1;
        }
        RunUnfolds(HexDigits, Tail(body, j));
        CodeRead(body, i, j, items);
        if j == i + 2 { return Refused(NoHexDigits); }
        var cp := CodePoint(body[i + 2..j]);
        if cp.Refused? { return Refused(cp.fault); }
        items := items + [Point(cp.value)];
        i := j;
        continue;
      }
      MemberRead(body, i, items);
      items := items + [MemberOf(body[i])];
      i := i + 1;
    }
    MembersEnd(body, items);
    r := Fine(items);
  }

  /** Turns hyphens into ranges where they have a code point on either side. */
  method FoldMembers(items: seq<Member>) returns (r: Checked<seq<Part>>)
    ensures r == Fold(items)
  {
    var parts: seq<Part> := [];
    var k := 0;
    assert items[0..] == items;
    OntoEmpty(Fold(items));
    while k < |items|
      invariant k <= |items|
      invariant Fold(items) == Onto(parts, Fold(items[k..]))
    {
      ghost var ms := items[k..];
      if items[k].Hyphen? {
        assert ms[1..] == items[k + 1..];
        OntoThen(parts, Part(0x2D, 0x2D), Fold(items[k + 1..]));
        parts := parts + [Part(0x2D, 0x2D)];
        k := k + 1;
        continue;
      }
      var lo := items[k].cp;
      if k + 2 < |items| && items[k + 1].Hyphen? && items[k + 2].Point? {
        var hi := items[k + 2].cp;
        if hi < lo { return Refused(ReversedRange); }
        assert ms[3..] == items[k + 3..];
        OntoThen(parts, Part(lo, hi), Fold(items[k + 3..]));
        parts := parts + [Part(lo, hi)];
        k := k + 3;
        continue;
      }
      assert ms[1..] == items[k + 1..];
      OntoThen(parts, Part(lo, lo), Fold(items[k + 1..]));
      parts := parts + [Part(lo, lo)];
      k := k + 1;
    }
    assert items[k..] == [];
    Ends(parts);
    r := Fine(parts);
  }
}
