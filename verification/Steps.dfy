/**
 How the reader's functions go on from one offset of a source to the next: the steps that the
 loops of the scanner take, each as a law about the text not read yet.
 */
module Steps {
  import opened Wrappers
  import opened Text
  import opened CharClass
  import opened Grammar
  import opened Syntax
  import opened Reader

  /** The text from an offset on. */
  function Tail(src: string, i: nat): string
    requires i <= |src|
  {
    src[i..]
  }

  lemma TailIs(src: string, i: nat)
    requires i <= |src|
    ensures Tail(src, i) == src[i..] && |Tail(src, i)| == |src| - i
  {
  }

  lemma TailAt(src: string, i: nat, c: char)
    requires i <= |src|
    ensures |Tail(src, i)| == |src| - i
    ensures At(Tail(src, i), c) <==> i < |src| && src[i] == c
  {
  }

  lemma TailDrop(src: string, i: nat, n: nat)
    requires i + n <= |src|
    ensures Tail(src, i)[n..] == Tail(src, i + n)
  {
  }

  lemma TailTake(src: string, i: nat, j: nat)
    requires i <= j <= |src|
    ensures Tail(src, i)[..j - i] == src[i..j]
  {
  }

  /** Whether the gap at one offset goes on at another, so that both end at one place or one fault. */
  ghost predicate SkippedTo(src: string, from: nat, i: nat)
    requires from <= i <= |src|
  {
    var a, b := Skip(Tail(src, from)), Skip(Tail(src, i));
    (b.Bad? ==> a == b) && (b.Got? ==> a.Got? && a.rest == b.rest)
  }

  lemma GapSkipped(src: string, from: nat, i: nat, k: nat)
    requires from <= i <= |src| && SkippedTo(src, from, i)
    requires GapStep(Tail(src, i)) > 0 && k == i + GapStep(Tail(src, i))
    ensures SkippedTo(src, from, k)
  {
    hide Skip;
    SkipUnfolds(Tail(src, i));
    TailDrop(src, i, k - i);
  }

  lemma GapDone(src: string, from: nat, i: nat)
    requires from <= i <= |src| && SkippedTo(src, from, i) && GapStep(Tail(src, i)) == 0
    ensures GapStarts(Tail(src, i)) ==> Skip(Tail(src, from)) == Bad(UnterminatedComment, |src| - i)
  {
    hide Skip;
    SkipUnfolds(Tail(src, i));
  }

  lemma SkipEnds(src: string, from: nat, i: nat)
    requires from <= i <= |src| && SkippedTo(src, from, i) && !GapStarts(Tail(src, i))
    ensures var r := Skip(Tail(src, from)); r.Got? && r.rest == Tail(src, i) && i == from + |r.value|
  {
    hide Skip;
    SkipUnfolds(Tail(src, i));
  }

  /** What a class in its place in the source is read as. */
  lemma ReadClassAt(src: string, at: nat, neg: bool, start: nat, end: nat)
    requires at < |src| && src[at] == '['
    requires neg == (at + 1 < |src| && src[at + 1] == '^') && start == at + (if neg then 2 else 1)
    requires end == start + Run(ClassChars, Tail(src, start))
    ensures ReadClass(Tail(src, at)) ==
            if end == |src| || src[end] != ']' then Bad(UnclosedClass, |src| - end)
            else if start == end then Bad(EmptyClass, |src| - end - 1)
            else match Parts(src[start..end])
                 case Refused(f) => Bad(BadClass(f), |src| - end - 1)
                 case Fine(_) => Got(Class(neg, src[start..end]), Tail(src, end + 1))
    ensures end <= |src|
  {
    hide ReadClass, Parts, Run, Tail, All;
    var s, t, n := Tail(src, at), Tail(src, start), end - start;
    ClassOpens(src, at, neg);
    TailAfter(src, start, n);
    TailDrop(src, at, start - at);
    TailTake(src, start, end);
    if n < |t| { TailDrop(src, start, n + 1); }
    ReadClassUnfolds(s, neg, t, n);
  }

  lemma TailAfter(src: string, i: nat, n: nat)
    requires i <= |src|
    ensures var t := Tail(src, i); |t| == |src| - i && (n < |t| ==> t[n] == src[i + n])
  {
  }

  lemma ClassOpens(src: string, at: nat, neg: bool)
    requires at < |src| && src[at] == '[' && neg == (at + 1 < |src| && src[at + 1] == '^')
    ensures At(Tail(src, at), '[') && At(Tail(src, at)[1..], '^') == neg
  {
  }

  lemma ReadClassUnfolds(s: string, neg: bool, t: string, n: nat)
    requires At(s, '[') && At(s[1..], '^') == neg && t == s[if neg then 2 else 1..] && n == Run(ClassChars, t)
    ensures ReadClass(s) ==
            if n == |t| || t[n] != ']' then Bad(UnclosedClass, |t| - n)
            else if n == 0 then Bad(EmptyClass, |t| - 1)
            else match Parts(t[..n])
                 case Refused(f) => Bad(BadClass(f), |t| - n - 1)
                 case Fine(_) => Got(Class(neg, t[..n]), t[n + 1..])
  {
    hide Parts, Run, AtomText;
  }

  lemma PartsUnfold(body: string)
    ensures Parts(body) == match Members(body)
                           case Refused(f) => Refused(f)
                           case Fine(ms) => Fold(ms)
  {
  }

  lemma MembersNone()
    ensures Members("") == Fine([])
  {
  }

  /** A list in front of a checked one. */
  function Onto<T>(xs: seq<T>, r: Checked<seq<T>>): Checked<seq<T>> {
    match r
    case Fine(ys) => Fine(xs + ys)
    case Refused(f) => Refused(f)
  }

  /** Whether the members before an offset of a class body are `items`. */
  ghost predicate MembersSoFar(body: string, i: nat, items: seq<Member>)
    requires i <= |body|
  {
    Members(body) == Onto(items, Members(Tail(body, i)))
  }

  lemma MembersStart(body: string)
    ensures MembersSoFar(body, 0, [])
  {
    TailIs(body, 0);
    assert body[0..] == body;
    OntoEmpty(Members(body));
  }

  /** A character that begins no code point is a member of its own. */
  lemma MemberRead(body: string, i: nat, items: seq<Member>)
    requires i < |body| && MembersSoFar(body, i, items)
    requires !(body[i] == '#' && i + 1 < |body| && body[i + 1] == 'x')
    ensures MembersSoFar(body, i + 1, items + [MemberOf(body[i])])
  {
    hide Members, Onto;
    MembersOne(Tail(body, i));
    TailDrop(body, i, 1);
    OntoThen(items, MemberOf(body[i]), Members(Tail(body, i + 1)));
  }

  /** A code point: its digits run from two past `i` up to `j`. */
  lemma CodeRead(body: string, i: nat, j: nat, items: seq<Member>)
    requires i + 2 <= |body| && MembersSoFar(body, i, items) && body[i] == '#' && body[i + 1] == 'x'
    requires i + 2 <= j <= |body| && j - (i + 2) == Run(HexDigits, Tail(body, i + 2))
    ensures All(HexDigits, body[i + 2..j])
    ensures j == i + 2 ==> Members(body) == Refused(NoHexDigits)
    ensures var c := CodePoint(body[i + 2..j]);
            && (j > i + 2 && c.Refused? ==> Members(body) == Refused(c.fault))
            && (j > i + 2 && c.Fine? ==> MembersSoFar(body, j, items + [Point(c.value)]))
  {
    hide Members, Run, CodePoint, HexValue;
    var t := Tail(body, i + 2);
    TailDrop(body, i, 2);
    TailDrop(body, i + 2, j - (i + 2));
    TailTake(body, i + 2, j);
    MembersCode(Tail(body, i), t, j - (i + 2));
    if j > i + 2 && CodePoint(body[i + 2..j]).Fine? {
      OntoThen(items, Point(CodePoint(body[i + 2..j]).value), Members(Tail(body, j)));
    }
  }

  lemma MembersEnd(body: string, items: seq<Member>)
    requires MembersSoFar(body, |body|, items)
    ensures Members(body) == Fine(items)
  {
    TailIs(body, |body|);
    MembersNone();
    Ends(items);
  }

  lemma OntoEmpty<T>(r: Checked<seq<T>>)
    ensures Onto([], r) == r
  {
    if r.Fine? { Ends(r.value); }
  }

  lemma OntoThen<T>(xs: seq<T>, x: T, r: Checked<seq<T>>)
    ensures Onto(xs, Then(x, r)) == Onto(xs + [x], r)
  {
    if r.Fine? { assert xs + ([x] + r.value) == xs + [x] + r.value; }
  }

  lemma SkipTail(src: string, from: nat)
    requires from <= |src| && Skip(Tail(src, from)).Got?
    ensures var r := Skip(Tail(src, from)); from + |r.value| <= |src| && Tail(src, from + |r.value|) == r.rest
  {
    hide Skip;
    var r := Skip(Tail(src, from));
    Behind(r.value, r.rest);
    TailDrop(src, from, |r.value|);
  }

  lemma SkipNone(s: string)
    requires !GapStarts(s)
    ensures Skip(s) == Got("", s)
  {
  }

  // ---- atoms in their place

  /** What a quoted literal in its place is read as; `end` is where its characters stop. */
  lemma ReadQuotedAt(src: string, at: nat, end: nat)
    requires at < |src| && end == at + 1 + Run(StringChars(src[at]), Tail(src, at + 1))
    ensures end <= |src|
    ensures ReadQuoted(Tail(src, at)) ==
            if end == |src| then Bad(UnterminatedString, |src| - at)
            else if src[end] != src[at] then Bad(ControlInString, |src| - end)
            else if end == at + 1 then Bad(EmptyString, |src| - end - 1)
            else Got(Quoted(src[at], src[at + 1..end]), Tail(src, end + 1))
  {
    hide Run;
    var t, n := Tail(src, at + 1), end - at - 1;
    TailDrop(src, at, 1);
    assert t[..n] == src[at + 1..end];
    if n < |t| { TailDrop(src, at + 1, n + 1); }
  }

  lemma ReadHexAt(src: string, at: nat, end: nat)
    requires at + 2 <= |src| && src[at] == '#' && src[at + 1] == 'x'
    requires end == at + 2 + Run(HexDigits, Tail(src, at + 2))
    ensures end <= |src| && All(HexDigits, src[at + 2..end])
    ensures ReadHex(Tail(src, at)) ==
            if end == at + 2 then Bad(BadCodePoint(NoHexDigits), |src| - end)
            else match CodePoint(src[at + 2..end])
                 case Refused(f) => Bad(BadCodePoint(f), |src| - end)
                 case Fine(_) => Got(Hex(src[at + 2..end]), Tail(src, end))
  {
    hide Run, HexValue;
    var t, n := Tail(src, at + 2), end - at - 2;
    TailDrop(src, at, 2);
    TailDrop(src, at + 2, n);
    assert t[..n] == src[at + 2..end];
  }

  lemma ReadNameAt(src: string, at: nat, end: nat)
    requires at < |src| && end == at + Run(NameChars, Tail(src, at))
    ensures end <= |src|
    ensures ReadName(Tail(src, at)) ==
            if end == at then Bad(UnexpectedCharacter, |src| - end)
            else if !ValidName(src[at..end]) then Bad(BadName, |src| - end)
            else Got(Name(src[at..end]), Tail(src, end))
  {
    hide Run;
    TailDrop(src, at, end - at);
    assert Tail(src, at)[..end - at] == src[at..end];
  }

  lemma ReadAtomEnd()
    ensures ReadAtom("") == Bad(ExpectedExpression, 0)
  {
  }

  /** Which of the readers an atom is left to. */
  lemma ReadAtomAt(src: string, at: nat)
    requires at < |src|
    ensures var s, c := Tail(src, at), src[at];
            && (c == '"' || c == '\'' ==> ReadAtom(s) == ReadQuoted(s))
            && (c == '[' ==> ReadAtom(s) == ReadClass(s))
            && (c == '#' ==> ReadAtom(s) == ReadHex(s))
            && (c == '?' ==> ReadAtom(s) == Bad(SpecialSequence, |s|))
            && (c == '-' ==> ReadAtom(s) == Bad(Subtraction, |s|))
            && (c == '{' || c == '}' ==> ReadAtom(s) == Bad(IsoRepetition, |s|))
            && (c == '*' || c == '+' ==> ReadAtom(s) == Bad(DanglingPostfix, |s|))
            && (c !in "\"'[(#?-{}*+" ==> ReadAtom(s) == ReadName(s))
  {
    hide ReadQuoted, ReadClass, ReadHex, ReadName, ReadAlts;
  }

  /** A group in its place, once its alternatives are read up to `end`. */
  lemma ReadParenAt(src: string, at: nat, end: nat, alts: seq<Seq>)
    requires at < |src| && src[at] == '(' && end <= |src|
    requires ReadAlts(Tail(src, at + 1)) == Got(alts, Tail(src, end))
    ensures ReadAtom(Tail(src, at)) ==
            if end < |src| && src[end] == ')' then Got(Paren(alts), Tail(src, end + 1))
            else Bad(UnclosedGroup, |src| - end)
    ensures end == at + 1 + |AltsText(alts)|
    ensures !GapStarts(Tail(src, end))
  {
    hide ReadQuoted, ReadClass, ReadHex, ReadName, ReadAlts;
    TailDrop(src, at, 1);
    if end < |src| { TailDrop(src, end, 1); }
  }

  lemma ReadParenBad(src: string, at: nat, f: Fault, left: nat)
    requires at < |src| && src[at] == '(' && ReadAlts(Tail(src, at + 1)) == Bad(f, left)
    ensures ReadAtom(Tail(src, at)) == Bad(f, left)
  {
    hide ReadQuoted, ReadClass, ReadHex, ReadName, ReadAlts;
    TailDrop(src, at, 1);
  }

  // ---- elements, concatenations and alternatives

  lemma AtomInPlace(src: string, j: nat, p: nat, a: Atom)
    requires j <= |src| && p <= |src| && ReadAtom(Tail(src, j)) == Got(a, Tail(src, p))
    ensures j == p - |AtomText(a)|
  {
    hide ReadAtom, AtomText;
  }

  lemma ReadElemAt(src: string, at: nat, mid: nat, end: nat, a: Atom)
    requires at <= mid <= |src| && ReadAtom(Tail(src, at)) == Got(a, Tail(src, mid))
    requires end == mid + Run(Postfixes, Tail(src, mid))
    ensures end <= |src| && ReadElem(Tail(src, at)) == Got(Elem(a, src[mid..end]), Tail(src, end))
    ensures mid == at + |AtomText(a)|
  {
    hide ReadAtom, Run;
    TailDrop(src, mid, end - mid);
    assert Tail(src, mid)[..end - mid] == src[mid..end];
  }

  /** One postfix operator at hand, or none. */
  lemma PostStep(src: string, p: nat, i: nat)
    requires p <= i < |src| && IsPostfix(src[i])
    ensures Run(Postfixes, Tail(src, i)) == 1 + Run(Postfixes, Tail(src, i + 1))
    ensures src[p..i + 1] == src[p..i] + [src[i]]
  {
    hide Run;
    RunUnfolds(Postfixes, Tail(src, i));
    TailDrop(src, i, 1);
  }

  lemma PostEnd(src: string, i: nat)
    requires i <= |src| && (i < |src| ==> !IsPostfix(src[i]))
    ensures Run(Postfixes, Tail(src, i)) == 0
  {
    hide Run;
    RunUnfolds(Postfixes, Tail(src, i));
  }

  lemma ReadElemBad(s: string, f: Fault, left: nat)
    requires ReadAtom(s) == Bad(f, left)
    ensures ReadElem(s) == Bad(f, left)
  {
  }

  /** Whether the items located from `from` are those of `acc` and those read from `i` on. */
  ghost predicate SeqSoFar(src: string, from: nat, i: nat, first: bool, acc: seq<Element>)
    requires from <= i <= |src|
  {
    var a, b := ReadSeq(Tail(src, from), true), ReadSeq(Tail(src, i), first);
    && (b.Bad? ==> a == b)
    && (b.Got? ==> a.Got? && a.rest == b.rest && AllItems(src, from, a.value) == acc + AllItems(src, i, b.value))
  }

  /** The located items of a concatenation that stands at an offset. */
  function AllItems(src: string, at: nat, q: Seq): seq<Element> {
    if at + |ItemsText(q.items)| <= |src| then LocItems(q.items, src, at) else []
  }

  lemma SeqStarts(src: string, from: nat)
    requires from <= |src|
    ensures SeqSoFar(src, from, from, true, [])
  {
    hide ReadSeq, LocItems;
  }

  /** One item more: its gap from `i` to `j`, its element from `j` to `k`. */
  lemma SeqStep(src: string, from: nat, i: nat, first: bool, acc: seq<Element>, j: nat, x: Elem, k: nat)
    requires from <= i <= j <= k <= |src| && SeqSoFar(src, from, i, first, acc)
    requires ReadGap(Tail(src, i), first).Goes? && ReadGap(Tail(src, i), first).text == Tail(src, j)
    requires ReadElem(Tail(src, j)) == Got(x, Tail(src, k))
    ensures k == j + |ElemText(x)|
    ensures SeqSoFar(src, from, k, false, acc + [LocElem(x, src, j)])
  {
    hide ReadSeq, ReadElem, LocElem, ElemText, ReadGap;
    ReadSeqByGap(Tail(src, i), first);
    var g := ReadGap(Tail(src, i), first);
    var q := ReadSeq(Tail(src, k), false);
    if q.Got? {
      var it := Item(g.lead, g.comma, x);
      ItemsPrepend(it, q.value.items, src, i, j, k);
      SeqTextPrepend(it, q.value);
      Assoc(acc, [LocElem(x, src, j)], AllItems(src, k, q.value));
    }
  }

  lemma ItemsPrepend(it: Item, more: seq<Item>, src: string, i: nat, j: nat, k: nat)
    requires j == i + |GapText(it)| && k == j + |ElemText(it.elem)| && k + |ItemsText(more)| <= |src|
    ensures i + |ItemsText([it] + more)| <= |src|
    ensures LocItems([it] + more, src, i) == [LocElem(it.elem, src, j)] + LocItems(more, src, k)
  {
    assert ([it] + more)[1..] == more;
  }

  /** What stands before an item: its gap and comma, or the end of the concatenation, or a fault. */
  datatype Gapped =
    | Over(gap: string, rest: string)
    | Goes(lead: string, comma: Option<string>, text: string)
    | Faulty(fault: Fault, left: nat)

  function ReadGap(s: string, first: bool): (r: Gapped)
    ensures r.Over? ==> s == r.gap + r.rest && !first
    ensures r.Goes? ==> s == GapOf(r.lead, r.comma) + r.text && !GapStarts(r.text) && !SeqEnds(r.text)
    ensures r.Faulty? ==> r.left <= |s|
  {
    match Skip(s)
    case Bad(f, l) => Faulty(f, l)
    case Got(lead, t) =>
      if SeqEnds(t) then (if first then Faulty(EmptyAlternative, |t|) else Over(lead, t))
      else if t[0] != ',' then Goes(lead, None, t)
      else if first then Faulty(LeadingComma, |t|)
      else ReadCommaGap(lead, t)
  }

  function ReadCommaGap(lead: string, t: string): (r: Gapped)
    requires At(t, ',')
    ensures r.Goes? ==> lead + t == GapOf(r.lead, r.comma) + r.text && !GapStarts(r.text) && !SeqEnds(r.text)
    ensures r.Faulty? ==> r.left <= |t|
    ensures !r.Over?
  {
    match Skip(t[1..])
    case Bad(f, l) => Faulty(f, l)
    case Got(gap, u) =>
      Cut(t, 1);
      Assoc3(lead, ",", gap, u);
      if SeqEnds(u) then Faulty(TrailingComma, |u|) else Goes(lead, Some(gap), u)
  }

  /** Reading a concatenation is reading what stands before its next item, and then the item. */
  lemma ReadSeqByGap(s: string, first: bool)
    ensures ReadSeq(s, first) ==
            match ReadGap(s, first)
            case Over(gap, t) => Got(Seq([], gap), t)
            case Goes(lead, comma, t) => ReadItem(lead, comma, t)
            case Faulty(f, l) => Bad(f, l)
  {
    hide Skip, SeqEnds, ReadItem;
  }

  /** The fault before an item is the concatenation's. */
  lemma GapFault(src: string, from: nat, i: nat, first: bool, acc: seq<Element>)
    requires from <= i <= |src| && SeqSoFar(src, from, i, first, acc) && ReadGap(Tail(src, i), first).Faulty?
    ensures var g := ReadGap(Tail(src, i), first); ReadSeq(Tail(src, from), true) == Bad(g.fault, g.left)
  {
    hide ReadSeq, ReadGap;
    ReadSeqByGap(Tail(src, i), first);
  }

  /** At its end, the concatenation is what has been read. */
  lemma GapOver(src: string, from: nat, i: nat, first: bool, acc: seq<Element>)
    requires from <= i <= |src| && SeqSoFar(src, from, i, first, acc) && ReadGap(Tail(src, i), first).Over?
    ensures var a := ReadSeq(Tail(src, from), true);
            a.Got? && a.rest == ReadGap(Tail(src, i), first).rest && AllItems(src, from, a.value) == acc
  {
    hide ReadSeq, ReadGap;
    ReadSeqByGap(Tail(src, i), first);
    assert AllItems(src, i, Seq([], ReadGap(Tail(src, i), first).gap)) == [];
    Ends(acc);
  }

  /** The fault in an item is the concatenation's. */
  lemma ItemFault(src: string, from: nat, i: nat, first: bool, acc: seq<Element>, f: Fault, left: nat)
    requires from <= i <= |src| && SeqSoFar(src, from, i, first, acc) && ReadGap(Tail(src, i), first).Goes?
    requires ReadElem(ReadGap(Tail(src, i), first).text) == Bad(f, left)
    ensures ReadSeq(Tail(src, from), true) == Bad(f, left)
  {
    hide ReadSeq, ReadGap, ReadElem;
    ReadSeqByGap(Tail(src, i), first);
  }

  ghost predicate AltsSoFar(src: string, from: nat, i: nat, acc: seq<Sequence>)
    requires from <= i <= |src|
  {
    var a, b := ReadAlts(Tail(src, from)), ReadAlts(Tail(src, i));
    && (b.Bad? ==> a == b)
    && (b.Got? ==> a.Got? && a.rest == b.rest && AllAlts(src, from, a.value) == acc + AllAlts(src, i, b.value))
  }

  function AllAlts(src: string, at: nat, alts: seq<Seq>): seq<Sequence> {
    if at + |AltsText(alts)| <= |src| then LocAlts(alts, src, at) else []
  }

  lemma AltsStart(src: string, from: nat)
    requires from <= |src|
    ensures AltsSoFar(src, from, from, [])
  {
    hide ReadAlts, LocAlts;
  }

  lemma AltsFault(src: string, from: nat, i: nat, acc: seq<Sequence>, f: Fault, left: nat)
    requires from <= i <= |src| && AltsSoFar(src, from, i, acc)
    requires ReadSeq(Tail(src, i), true) == Bad(f, left)
    ensures ReadAlts(Tail(src, from)) == Bad(f, left)
  {
    hide ReadSeq;
  }

  /** Alternatives behind a bar are alternatives. */
  lemma BarThenAlts(s: string)
    requires At(s, '|') && !GapStarts(s) && SeqEnds(s)
    ensures ReadMore(s) == ReadAlts(s[1..])
  {
    hide ReadSeq;
  }

  lemma LocMoreAlts(alts: seq<Seq>, src: string, at: nat)
    requires alts != [] && at + |MoreText(alts)| <= |src|
    ensures MoreText(alts) == "|" + AltsText(alts)
    ensures LocMore(alts, src, at) == LocAlts(alts, src, at + 1)
  {
    Assoc("|", SeqText(alts[0]), MoreText(alts[1..]));
  }

  /** The last alternative. */
  lemma AltsEnd(src: string, from: nat, i: nat, acc: seq<Sequence>, q: Seq, k: nat)
    requires from <= i <= k <= |src| && AltsSoFar(src, from, i, acc)
    requires ReadSeq(Tail(src, i), true) == Got(q, Tail(src, k)) && (k == |src| || src[k] != '|')
    ensures var a := ReadAlts(Tail(src, from));
            && a.Got? && a.rest == Tail(src, k)
            && AllAlts(src, from, a.value) == acc + [Sequence(AllItems(src, i, q))]
  {
    hide ReadSeq;
    assert ReadMore(Tail(src, k)) == Got([], Tail(src, k));
    Ends([q]);
    assert ([q] + [])[1..] == [];
    OneAlt(q, src, i);
  }

  lemma OneAlt(q: Seq, src: string, at: nat)
    requires at + |SeqText(q)| <= |src|
    ensures AllAlts(src, at, [q]) == [Sequence(AllItems(src, at, q))]
  {
    assert [q][1..] == [];
    Ends(SeqText(q));
    assert LocAlts([q], src, at) == [Sequence(LocItems(q.items, src, at))] + [];
  }

  /** One alternative more, and the bar after it. */
  lemma AltsStep(src: string, from: nat, i: nat, acc: seq<Sequence>, q: Seq, k: nat)
    requires from <= i <= k < |src| && AltsSoFar(src, from, i, acc)
    requires ReadSeq(Tail(src, i), true) == Got(q, Tail(src, k)) && src[k] == '|'
    ensures AltsSoFar(src, from, k + 1, acc + [Sequence(AllItems(src, i, q))])
  {
    hide ReadSeq, LocAlts, LocMore, LocItems;
    var b := ReadAlts(Tail(src, k + 1));
    TailDrop(src, k, 1);
    BarThenAlts(Tail(src, k));
    if b.Got? {
      MoreAlts(q, b.value, src, i, k);
      Assoc(acc, [Sequence(AllItems(src, i, q))], AllAlts(src, k + 1, b.value));
    }
  }

  lemma MoreAlts(q: Seq, more: seq<Seq>, src: string, at: nat, k: nat)
    requires more != [] && k == at + |SeqText(q)| && k + 1 + |AltsText(more)| <= |src|
    ensures AllAlts(src, at, [q] + more) == [Sequence(AllItems(src, at, q))] + AllAlts(src, k + 1, more)
  {
    assert ([q] + more)[1..] == more;
    assert MoreText(more) == "|" + AltsText(more) by { Assoc("|", SeqText(more[0]), MoreText(more[1..])); }
    LocMoreAlts(more, src, k);
  }

  lemma NotEnd(s: string)
    requires !SeqEnds(s)
    ensures s != ""
  {
  }

  /** Whether a rule starts, from the run of its name on. */
  lemma SeqEndsAt(src: string, at: nat, end: nat)
    requires at < |src| && !IsTerminator(src[at]) && end == at + Run(NameChars, Tail(src, at))
    ensures end <= |src|
    ensures SeqEnds(Tail(src, at)) <==>
            end > at && match Skip(Tail(src, end))
                        case Bad(_, _) => false
                        case Got(_, r) => DefStarts(r) && !Begins(r, '=', '=')
  {
    hide Run, Skip;
    TailDrop(src, at, end - at);
  }

  lemma {:induction false} WrapMore(e: Element, posts: string, c: char)
    ensures Wrap(e, posts + [c]) == if c == '?' then Opt(Wrap(e, posts))
                                    else if c == '*' then Star(Wrap(e, posts)) else Plus(Wrap(e, posts))
  {
    assert (posts + [c])[..|posts|] == posts;
  }

  lemma WrapNone(e: Element)
    ensures Wrap(e, "") == e
  {
  }

  // ---- rules

  /** Whether the productions located so far are those of the rules before an offset. */
  ghost predicate ProdsSoFar(src: string, i: nat, acc: seq<Production>)
    requires i <= |src|
  {
    var a, b := ReadFile(src), ReadFile(Tail(src, i));
    && (b.Bad? ==> a == b)
    && (b.Got? ==> a.Got? && AllProds(src, 0, a.value.prods) == acc + AllProds(src, i, b.value.prods))
  }

  function AllProds(src: string, at: nat, ps: seq<Prod>): seq<Production> {
    if at + |ProdsText(ps)| <= |src| then LocProds(ps, src, at) else []
  }

  lemma ProdsStart(src: string)
    ensures ProdsSoFar(src, 0, [])
  {
    hide ReadFile, LocProds;
    assert Tail(src, 0) == src;
  }

  lemma ReadFileAt(s: string)
    ensures ReadFile(s) ==
            match Skip(s)
            case Bad(f, l) => Bad(f, l)
            case Got(lead, s1) =>
              if s1 == "" then Got(File([], lead), "")
              else match ReadProd(lead, s1)
                   case Bad(f, l) => Bad(f, l)
                   case Got(p, s2) =>
                     match ReadFile(s2)
                     case Bad(f, l) => Bad(f, l)
                     case Got(file, _) => Got(File([p] + file.prods, file.tail), "")
  {
    hide Skip, ReadProd;
  }

  lemma ProdsFault(src: string, i: nat, acc: seq<Production>, f: Fault, left: nat)
    requires i <= |src| && ProdsSoFar(src, i, acc)
    requires ReadFile(Tail(src, i)) == Bad(f, left)
    ensures ReadFile(src) == Bad(f, left)
  {
    hide ReadFile;
  }

  /** The end of the source. */
  lemma ProdsEnd(src: string, i: nat, acc: seq<Production>, tail: string)
    requires i <= |src| && ProdsSoFar(src, i, acc)
    requires Skip(Tail(src, i)) == Got(tail, "")
    ensures var a := ReadFile(src); a.Got? && AllProds(src, 0, a.value.prods) == acc
  {
    hide Skip, ReadFile;
    ReadFileAt(Tail(src, i));
    Ends(acc);
  }

  /** One rule more: the gap before it from `i` to `j`, the rule up to `k`. */
  lemma ProdsStep(src: string, i: nat, acc: seq<Production>, lead: string, j: nat, p: Prod, k: nat)
    requires i <= j <= k <= |src| && ProdsSoFar(src, i, acc)
    requires Skip(Tail(src, i)) == Got(lead, Tail(src, j)) && j < |src|
    requires ReadProd(lead, Tail(src, j)) == Got(p, Tail(src, k))
    ensures i + |ProdText(p)| == k
    ensures ProdsSoFar(src, k, acc + [LocProd(p, src, i)])
  {
    hide Skip, ReadProd, ReadFile, LocProd, ProdText;
    ReadFileAt(Tail(src, i));
    var b := ReadFile(Tail(src, k));
    if b.Got? {
      ProdsPrepend(p, b.value.prods, src, i, k);
      Assoc(acc, [LocProd(p, src, i)], AllProds(src, k, b.value.prods));
    }
  }

  lemma ProdsPrepend(p: Prod, more: seq<Prod>, src: string, i: nat, k: nat)
    requires k == i + |ProdText(p)| && k + |ProdsText(more)| <= |src|
    ensures AllProds(src, i, [p] + more) == [LocProd(p, src, i)] + AllProds(src, k, more)
  {
    hide LocProd, ProdText;
    assert ([p] + more)[1..] == more;
  }

  /** A rule in its place: its name from `j`, its definition from `d`. */
  lemma ReadProdAt(src: string, lead: string, j: nat, n: nat)
    requires j < |src| && n == Run(NameChars, Tail(src, j))
    ensures j + n <= |src|
    ensures ReadProd(lead, Tail(src, j)) ==
            if n == 0 then Bad(ExpectedRuleName, |src| - j)
            else if !ValidName(src[j..j + n]) then Bad(BadName, |src| - (j + n))
            else match Skip(Tail(src, j + n))
                 case Bad(f, l) => Bad(f, l)
                 case Got(mid, t) =>
                   if DefStarts(t) then ReadBody(lead, src[j..j + n], mid, t) else Bad(ExpectedDefinition, |t|)
  {
    hide Run, Skip, ReadBody, DefStarts;
    TailDrop(src, j, n);
    assert Tail(src, j)[..n] == src[j..j + n];
  }

  /** A rule's IR from its parts: its name from `j`, its alternatives from `d`. */
  lemma ProdBuilt(src: string, at: nat, p: Prod, j: nat, d: nat)
    requires at + |ProdText(p)| <= |src|
    requires j == at + |p.lead| && d == j + |p.name| + |p.mid| + |DefText(p.colons)|
    ensures j + |p.name| <= |src|
    ensures LocProd(p, src, at) == Production(p.name, AllAlts(src, d, p.alts), SpanAt(src, j, |p.name|))
  {
    hide LocAlts, AltsText, LineAt, ColAt;
  }

  lemma ReadBodyAt(src: string, lead: string, name: string, mid: string, d: nat)
    requires d <= |src| && DefStarts(Tail(src, d))
    ensures var n := if src[d] == ':' then 3 else 1;
            && d + n <= |src|
            && ReadBody(lead, name, mid, Tail(src, d)) ==
               match ReadAlts(Tail(src, d + n))
               case Bad(f, l) => Bad(f, l)
               case Got(alts, v) =>
                 Got(Prod(lead, name, mid, src[d] == ':', alts, At(v, ';')), if At(v, ';') then v[1..] else v)
  {
    hide ReadAlts, AltsText;
    var n := if src[d] == ':' then 3 else 1;
    TailDrop(src, d, n);
  }
}
