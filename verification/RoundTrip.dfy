/**
 Reading undoes flattening on every legal arrangement, and every source the reader takes is one:
 the accepted texts are exactly the texts of the legal files.
 */
module RoundTrip {
  import opened Wrappers
  import opened Text
  import opened CharClass
  import opened Syntax
  import opened Reader
  import opened Legal

  // ---- flattened text is read back

  lemma ReadsQuoted(q: char, b: string, rest: string)
    requires LegalAtom(Quoted(q, b), rest)
    ensures ReadQuoted(AtomText(Quoted(q, b)) + rest) == Got(Quoted(q, b), rest)
  {
    var s := AtomText(Quoted(q, b)) + rest;
    assert s == [q] + (b + ([q] + rest)) by { Assoc3([q], b, [q], rest); }
    RunIs(StringChars(q), b, [q] + rest);
  }

  lemma ReadsClass(neg: bool, b: string, rest: string)
    requires LegalAtom(Class(neg, b), rest)
    ensures ReadClass(AtomText(Class(neg, b)) + rest) == Got(Class(neg, b), rest)
  {
    var head := if neg then "[^" else "[";
    var s, t := AtomText(Class(neg, b)) + rest, b + ("]" + rest);
    Assoc3(head, b, "]", rest);
    assert s == head + t;
    RunIs(ClassChars, b, "]" + rest);
    assert s[0] == '[' && s[|head|..] == t;
    assert At(s[1..], '^') == neg by {
      if neg { assert s[1] == '^'; } else { assert s[1..] == t && t[0] == b[0]; }
    }
    assert t[|b|] == ']' && t[|b| + 1..] == rest;
  }

  lemma ReadsHex(d: string, rest: string)
    requires LegalAtom(Hex(d), rest)
    ensures ReadHex(AtomText(Hex(d)) + rest) == Got(Hex(d), rest)
  {
    var s := AtomText(Hex(d)) + rest;
    assert s == "#x" + (d + rest) by { Assoc("#x", d, rest); }
    RunIs(HexDigits, d, rest);
    assert s[2..] == d + rest;
  }

  lemma ReadsName(n: string, rest: string)
    requires LegalAtom(Name(n), rest)
    ensures ReadName(n + rest) == Got(Name(n), rest)
  {
    RunIs(NameChars, n, rest);
  }

  lemma {:induction false} ReadsAtom(a: Atom, rest: string)
    requires LegalAtom(a, rest)
    ensures ReadAtom(AtomText(a) + rest) == Got(a, rest)
    decreases a, 0
  {
    hide ReadAtom, AltsText, LegalAlts, Parts, HexValue;
    if a.Paren? { ReadsParen(a.alts, rest); } else { ReadsLeaf(a, rest); }
  }

  lemma ReadsLeaf(a: Atom, rest: string)
    requires LegalAtom(a, rest) && !a.Paren?
    ensures ReadAtom(AtomText(a) + rest) == Got(a, rest)
  {
    hide ReadQuoted, ReadClass, ReadHex, ReadName, ReadAlts, Run, Parts, HexValue;
    assert (AtomText(a) + rest)[0] == AtomText(a)[0];
    match a
    case Name(n) => ReadsName(n, rest);
    case Quoted(q, b) => ReadsQuoted(q, b, rest);
    case Hex(d) => ReadsHex(d, rest);
    case Class(neg, b) => ReadsClass(neg, b, rest);
  }

  lemma {:induction false} ReadsParen(alts: seq<Seq>, rest: string)
    requires LegalAlts(alts, ")" + rest)
    ensures ReadAtom(AtomText(Paren(alts)) + rest) == Got(Paren(alts), rest)
    decreases alts, 2
  {
    hide ReadQuoted, ReadClass, ReadHex, ReadName, ReadAlts, Run, LegalAlts, AltsText;
    var t := AltsText(alts) + (")" + rest);
    ReadsAlts(alts, ")" + rest);
    Assoc3("(", AltsText(alts), ")", rest);
    Push('(', t);
    Push(')', rest);
  }

  lemma {:induction false} ReadsElem(e: Elem, rest: string)
    requires LegalElem(e, rest)
    ensures ReadElem(ElemText(e) + rest) == Got(e, rest)
    decreases e, 1
  {
    ReadsAtom(e.atom, e.posts + rest);
    Assoc(AtomText(e.atom), e.posts, rest);
    RunIs(Postfixes, e.posts, rest);
  }

  lemma {:induction false} ReadsItems(items: seq<Item>, post: string, rest: string, first: bool)
    requires LegalItems(items, post + rest) && IsGap(post) && !GapStarts(rest) && SeqEnds(rest)
    requires first ==> items != [] && items[0].comma.None?
    ensures ReadSeq(SeqText(Seq(items, post)) + rest, first) == Got(Seq(items, post), rest)
    decreases items
  {
    hide ReadSeq, ReadElem, ReadItem, Skip, GapText, ElemText, ItemsText, SeqText;
    hide LegalItems, LegalElem, LegalGap, GapStarts, SeqEnds, IsGap;
    if items == [] {
      ReadsNoItems(post, rest);
    } else {
      var i, more := items[0], Seq(items[1..], post);
      var u := SeqText(more) + rest;
      var t := ElemText(i.elem) + u;
      LegalHead(items, post, rest);
      ReadsElem(i.elem, u);
      ReadsItems(items[1..], post, rest, false);
      SeqTextPrepend(i, more);
      assert [i] + more.items == items;
      Assoc3(GapText(i), ElemText(i.elem), SeqText(more), rest);
      ElemStart(i.elem, u);
      ReadsGap(i, t, first);
      ItemStep(t, i, u, more, rest);
    }
  }

  lemma ReadsNoItems(post: string, rest: string)
    requires IsGap(post) && !GapStarts(rest) && SeqEnds(rest)
    ensures ReadSeq(SeqText(Seq([], post)) + rest, false) == Got(Seq([], post), rest)
  {
    hide SeqEnds, GapStarts, IsGap, Skip;
    SkipGap(post, rest);
    Ends(post);
  }

  lemma LegalHead(items: seq<Item>, post: string, rest: string)
    requires items != [] && LegalItems(items, post + rest)
    ensures var u := SeqText(Seq(items[1..], post)) + rest;
            && LegalElem(items[0].elem, u) && LegalGap(items[0]) && LegalItems(items[1..], post + rest)
            && !GapStarts(ElemText(items[0].elem) + u) && !SeqEnds(ElemText(items[0].elem) + u)
  {
    hide LegalElem, LegalGap, GapStarts, SeqEnds, ElemText;
    Assoc(ItemsText(items[1..]), post, rest);
  }

  lemma ItemStep(t: string, i: Item, u: string, more: Seq, rest: string)
    requires ReadElem(t) == Got(i.elem, u) && ReadSeq(u, false) == Got(more, rest)
    ensures ReadItem(i.lead, i.comma, t) == Got(Seq([i] + more.items, more.post), rest)
  {
    hide ReadElem, ReadSeq, ElemText, SeqText;
  }

  /** The gap of an item is read back, and the item is read after it. */
  lemma ReadsGap(i: Item, t: string, first: bool)
    requires LegalGap(i) && (first ==> i.comma.None?)
    requires !GapStarts(t) && !SeqEnds(t) && t[0] != ','
    ensures ReadSeq(GapText(i) + t, first) == ReadItem(i.lead, i.comma, t)
  {
    if i.comma.None? {
      SkipGap(i.lead, t);
    } else {
      var u := "," + (i.comma.value + t);
      CommaText(i, t);
      Push(',', i.comma.value + t);
      SkipGap(i.lead, u);
      ReadsComma(i.lead, i.comma.value, t);
      CommaNext(i.lead + u, i.lead, u);
    }
  }

  lemma CommaNext(s: string, lead: string, t: string)
    requires At(t, ',') && Skip(s) == Got(lead, t)
    ensures ReadSeq(s, false) == ReadComma(lead, t, false)
  {
    hide Skip, ReadComma, ReadItem;
    assert Run(NameChars, t) == 0;
  }

  lemma ReadsComma(lead: string, gap: string, t: string)
    requires IsGap(gap) && !GapStarts(t) && !SeqEnds(t)
    ensures ReadComma(lead, "," + (gap + t), false) == ReadItem(lead, Some(gap), t)
  {
    Push(',', gap + t);
    SkipGap(gap, t);
  }

  lemma CommaText(i: Item, t: string)
    requires i.comma.Some?
    ensures GapText(i) + t == i.lead + ("," + (i.comma.value + t))
  {
    Assoc3(i.lead, ",", i.comma.value, t);
  }

  /** An element never begins with a character that means something else where it may stand. */
  lemma ElemStart(e: Elem, rest: string)
    requires LegalElem(e, rest)
    ensures ElemText(e) != "" && (ElemText(e) + rest)[0] == ElemText(e)[0]
    ensures ElemText(e)[0] !in ",*+?|);=:"
  {
  }

  lemma {:induction false} ReadsSeq(q: Seq, rest: string)
    requires LegalSeq(q, rest)
    ensures ReadSeq(SeqText(q) + rest, true) == Got(q, rest)
    decreases q
  {
    ReadsItems(q.items, q.post, rest, true);
  }

  lemma {:induction false} ReadsAlts(alts: seq<Seq>, rest: string)
    requires LegalAlts(alts, rest)
    ensures ReadAlts(AltsText(alts) + rest) == Got(alts, rest)
    decreases alts, 1
  {
    hide ReadSeq, ReadMore, ReadAlts, SeqText, LegalSeq, GapStarts, SeqEnds;
    var q, t := alts[0], MoreText(alts[1..]) + rest;
    AltsHead(alts, rest);
    ReadsSeq(q, t);
    assert !GapStarts(t) && SeqEnds(t) by { SeqStops(q, t); }
    ReadsMore(alts[1..], rest);
    AltsStep(SeqText(q) + t, q, t, alts[1..], rest);
    assert [q] + alts[1..] == alts;
  }

  lemma AltsHead(alts: seq<Seq>, rest: string)
    requires alts != []
    ensures AltsText(alts) + rest == SeqText(alts[0]) + (MoreText(alts[1..]) + rest)
    ensures MoreText(alts) + rest == "|" + (SeqText(alts[0]) + (MoreText(alts[1..]) + rest))
  {
    Assoc(SeqText(alts[0]), MoreText(alts[1..]), rest);
    Assoc3("|", SeqText(alts[0]), MoreText(alts[1..]), rest);
  }

  lemma SeqStops(q: Seq, rest: string)
    requires LegalSeq(q, rest)
    ensures !GapStarts(rest) && SeqEnds(rest)
  {
  }

  lemma AltsStep(s: string, q: Seq, t: string, more: seq<Seq>, rest: string)
    requires ReadSeq(s, true) == Got(q, t) && !GapStarts(t) && SeqEnds(t) && ReadMore(t) == Got(more, rest)
    ensures ReadAlts(s) == Got([q] + more, rest)
  {
    hide ReadSeq, ReadMore, GapStarts, SeqEnds, AltsText, SeqText;
  }

  lemma {:induction false} ReadsMore(alts: seq<Seq>, rest: string)
    requires LegalMore(alts, rest) && !GapStarts(MoreText(alts) + rest) && SeqEnds(MoreText(alts) + rest)
    ensures ReadMore(MoreText(alts) + rest) == Got(alts, rest)
    decreases alts, 0
  {
    hide ReadSeq, ReadMore, SeqText, MoreText, LegalSeq, LegalMore, GapStarts, SeqEnds;
    if alts == [] {
      ReadsNoMore(rest);
    } else {
      var q, t := alts[0], MoreText(alts[1..]) + rest;
      AltsHead(alts, rest);
      LegalNext(alts, rest);
      ReadsSeq(q, t);
      SeqStops(q, t);
      ReadsMore(alts[1..], rest);
      MoreStep(MoreText(alts) + rest, q, t, alts[1..], rest);
      assert [q] + alts[1..] == alts;
    }
  }

  lemma ReadsNoMore(rest: string)
    requires var s := MoreText([]) + rest; !GapStarts(s) && SeqEnds(s) && LegalMore([], rest)
    ensures ReadMore(MoreText([]) + rest) == Got([], rest)
  {
    Ends(rest);
  }

  lemma LegalNext(alts: seq<Seq>, rest: string)
    requires alts != [] && LegalMore(alts, rest)
    ensures LegalSeq(alts[0], MoreText(alts[1..]) + rest) && LegalMore(alts[1..], rest)
  {
    hide LegalSeq;
  }

  lemma MoreStep(s: string, q: Seq, t: string, more: seq<Seq>, rest: string)
    requires !GapStarts(s) && SeqEnds(s) && s == "|" + (SeqText(q) + t)
    requires ReadSeq(SeqText(q) + t, true) == Got(q, t) && !GapStarts(t) && SeqEnds(t) && ReadMore(t) == Got(more, rest)
    ensures ReadMore(s) == Got([q] + more, rest)
  {
    hide ReadSeq, GapStarts, SeqEnds, SeqText;
    Push('|', SeqText(q) + t);
  }

  lemma ReadsBody(p: Prod, rest: string)
    requires LegalProd(p, rest)
    ensures var t := DefText(p.colons) + (AltsText(p.alts) + (EndText(p.semi) + rest));
            DefStarts(t) && ReadBody(p.lead, p.name, p.mid, t) == Got(p, rest)
  {
    hide ReadAlts, ReadBody, LegalAlts, AltsText, DefText, EndText, DefStarts;
    var end := EndText(p.semi) + rest;
    ReadsAlts(p.alts, end);
    DefinitionHead(p.colons, AltsText(p.alts) + end);
    BodyStep(p, AltsText(p.alts) + end, rest);
  }

  lemma DefinitionHead(colons: bool, u: string)
    ensures var t := DefText(colons) + u;
            DefStarts(t) && (t[0] == ':' <==> colons) && t[|DefText(colons)|..] == u
  {
    var d := DefText(colons);
    Behind(d, u);
    assert (d + u)[0] == d[0] && (colons ==> (d + u)[1] == d[1] && (d + u)[2] == d[2]);
  }

  lemma BodyStep(p: Prod, u: string, rest: string)
    requires ReadAlts(u) == Got(p.alts, EndText(p.semi) + rest) && (p.semi || !At(rest, ';'))
    requires DefStarts(DefText(p.colons) + u)
    ensures ReadBody(p.lead, p.name, p.mid, DefText(p.colons) + u) == Got(p, rest)
  {
    hide ReadAlts, DefText, AltsText, DefStarts, ProdText;
    DefinitionHead(p.colons, u);
    Push(';', rest);
    Ends(rest);
  }

  lemma ReadsProd(p: Prod, rest: string)
    requires LegalProd(p, rest)
    ensures var s := p.name + (p.mid + (DefText(p.colons) + (AltsText(p.alts) + (EndText(p.semi) + rest))));
            s != "" && !GapStarts(s) && ReadProd(p.lead, s) == Got(p, rest)
  {
    var t := DefText(p.colons) + (AltsText(p.alts) + (EndText(p.semi) + rest));
    var s := p.name + (p.mid + t);
    ReadsBody(p, rest);
    GapThenDefinition(p.mid, t);
    RunIs(NameChars, p.name, p.mid + t);
    NameHead(p.name, p.mid + t);
    ProdNext(p.lead, s, p.name, p.mid, t);
  }

  lemma NameHead(name: string, rest: string)
    requires ValidName(name)
    ensures name + rest != "" && !GapStarts(name + rest)
  {
    assert (name + rest)[0] == name[0];
  }

  lemma ProdNext(lead: string, s: string, name: string, mid: string, t: string)
    requires s != "" && ValidName(name) && Run(NameChars, s) == |name| && s[..|name|] == name
    requires Skip(s[|name|..]) == Got(mid, t) && DefStarts(t)
    ensures ReadProd(lead, s) == ReadBody(lead, name, mid, t)
  {
  }

  lemma GapThenDefinition(mid: string, t: string)
    requires IsGap(mid) && DefStarts(t)
    ensures !Next(NameChars, mid + t) && Skip(mid + t) == Got(mid, t)
  {
    SkipGap(mid, t);
    if mid == "" { Ends(t); }
  }

  lemma Regroup(a: string, b: string, c: string, d: string, e: string, f: string, g: string)
    ensures a + (b + (c + (d + (e + (f + g))))) == (a + b + c + d + e + f) + g
  {
  }

  lemma {:induction false} ReadsFile(f: File)
    requires LegalFile(f)
    ensures ReadFile(FileText(f)) == Got(f, "")
    decreases f.prods
  {
    if f.prods == [] {
      hide ReadFile, FileText;
      ReadsNoProds(f.tail);
    } else {
      hide ReadFile, ReadProd, Skip, LegalProd, LegalProds, LegalFile, ProdText, ProdsText, FileText, GapStarts, IsGap;
      LegalFirstProd(f);
      var p, more := f.prods[0], File(f.prods[1..], f.tail);
      var rest := FileText(more);
      ReadsFile(more);
      FileHead(f);
      var s := ReadsLedProd(p, rest);
      FileStep(ProdText(p) + rest, p.lead, s, p, rest, more);
      assert [p] + more.prods == f.prods;
    }
  }

  /** A rule with its gap: the gap is skipped, and then the rule is read. */
  lemma ReadsLedProd(p: Prod, rest: string) returns (s: string)
    requires LegalProd(p, rest)
    ensures Skip(ProdText(p) + rest) == Got(p.lead, s) && s != "" && ReadProd(p.lead, s) == Got(p, rest)
  {
    hide ReadProd, Skip, LegalProd, ProdText, GapStarts, IsGap, AltsText, DefText, EndText;
    s := p.name + (p.mid + (DefText(p.colons) + (AltsText(p.alts) + (EndText(p.semi) + rest))));
    ReadsProd(p, rest);
    LeadSplit(p, rest);
    LeadIsGap(p, rest);
    SkipGap(p.lead, s);
  }

  lemma LegalFirstProd(f: File)
    requires LegalFile(f) && f.prods != []
    ensures var more := File(f.prods[1..], f.tail); LegalProd(f.prods[0], FileText(more)) && LegalFile(more)
  {
    hide LegalProd;
  }

  lemma ReadsNoProds(tail: string)
    requires IsGap(tail)
    ensures ReadFile(FileText(File([], tail))) == Got(File([], tail), "")
  {
    hide IsGap, Skip;
    SkipGap(tail, "");
    Ends(tail);
  }

  lemma FileHead(f: File)
    requires f.prods != []
    ensures FileText(f) == ProdText(f.prods[0]) + FileText(File(f.prods[1..], f.tail))
  {
    Assoc(ProdText(f.prods[0]), ProdsText(f.prods[1..]), f.tail);
  }

  lemma LeadSplit(p: Prod, rest: string)
    ensures ProdText(p) + rest
         == p.lead + (p.name + (p.mid + (DefText(p.colons) + (AltsText(p.alts) + (EndText(p.semi) + rest)))))
  {
    Regroup(p.lead, p.name, p.mid, DefText(p.colons), AltsText(p.alts), EndText(p.semi), rest);
  }

  lemma LeadIsGap(p: Prod, rest: string)
    requires LegalProd(p, rest)
    ensures IsGap(p.lead)
  {
  }

  lemma FileStep(s: string, lead: string, t: string, p: Prod, u: string, more: File)
    requires Skip(s) == Got(lead, t) && t != "" && ReadProd(lead, t) == Got(p, u) && ReadFile(u) == Got(more, "")
    ensures ReadFile(s) == Got(File([p] + more.prods, more.tail), "")
  {
    hide Skip, ReadProd, ProdText;
  }

  // ---- what is read is legal

  lemma {:induction false} AtomIsLegal(s: string)
    requires ReadAtom(s).Got?
    ensures LegalAtom(ReadAtom(s).value, ReadAtom(s).rest)
    decreases |s|, 0
  {
    hide ReadAtom, LegalAtom;
    if s[0] == '(' { ParenIsLegal(s); } else { LeafIsLegal(s); }
  }

  lemma {:induction false} ParenIsLegal(s: string)
    requires At(s, '(') && ReadAtom(s).Got?
    ensures LegalAtom(ReadAtom(s).value, ReadAtom(s).rest)
    decreases |s| - 1, 5
  {
    hide ReadAlts, LegalAlts, ReadQuoted, ReadClass, ReadHex, ReadName;
    AltsIsLegal(s[1..]);
    Head(ReadAlts(s[1..]).rest, ')');
  }

  lemma LeafIsLegal(s: string)
    requires s != "" && s[0] != '(' && ReadAtom(s).Got?
    ensures LegalAtom(ReadAtom(s).value, ReadAtom(s).rest)
  {
    hide ReadQuoted, ReadClass, ReadHex, ReadName, ReadAlts, LegalAtom;
    if s[0] == '"' || s[0] == '\'' {
      QuotedIsLegal(s);
    } else if s[0] == '[' {
      ClassIsLegal(s);
    } else if s[0] == '#' {
      HexIsLegal(s);
    } else {
      NameIsLegal(s);
    }
  }

  lemma QuotedIsLegal(s: string)
    requires s != "" && (s[0] == '"' || s[0] == '\'') && ReadQuoted(s).Got?
    ensures LegalAtom(ReadQuoted(s).value, ReadQuoted(s).rest)
  {
    hide Run, AtomText;
  }

  lemma ClassIsLegal(s: string)
    requires At(s, '[') && ReadClass(s).Got?
    ensures LegalAtom(ReadClass(s).value, ReadClass(s).rest)
  {
    hide Run, Parts, AtomText;
  }

  lemma HexIsLegal(s: string)
    requires At(s, '#') && ReadHex(s).Got?
    ensures LegalAtom(ReadHex(s).value, ReadHex(s).rest)
  {
    hide Run, HexValue, AtomText;
  }

  lemma NameIsLegal(s: string)
    requires s != "" && ReadName(s).Got?
    ensures LegalAtom(ReadName(s).value, ReadName(s).rest)
  {
    hide Run, AtomText;
  }

  lemma {:induction false} ElemIsLegal(s: string)
    requires ReadElem(s).Got?
    ensures LegalElem(ReadElem(s).value, ReadElem(s).rest)
    decreases |s|, 1
  {
    AtomIsLegal(s);
    var t := ReadAtom(s).rest;
    Cut(t, Run(Postfixes, t));
  }

  lemma {:induction false} SeqIsLegal(s: string, first: bool)
    requires ReadSeq(s, first).Got?
    ensures var r := ReadSeq(s, first);
            LegalItems(r.value.items, r.value.post + r.rest) && IsGap(r.value.post)
    ensures first ==> LegalSeq(ReadSeq(s, first).value, ReadSeq(s, first).rest)
    decreases |s|, 3
  {
    SkipIsGap(s);
    var lead, t := Skip(s).value, Skip(s).rest;
    if SeqEnds(t) {
    } else if t[0] == ',' {
      SkipIsGap(t[1..]);
      ItemIsLegal(lead, Some(Skip(t[1..]).value), Skip(t[1..]).rest);
    } else {
      ItemIsLegal(lead, None, t);
    }
  }

  lemma {:induction false} ItemIsLegal(lead: string, comma: Option<string>, t: string)
    requires ReadItem(lead, comma, t).Got?
    requires IsGap(lead) && (comma.Some? ==> IsGap(comma.value)) && !GapStarts(t) && !SeqEnds(t)
    ensures var r := ReadItem(lead, comma, t);
            LegalItems(r.value.items, r.value.post + r.rest) && IsGap(r.value.post) && r.value.items[0].comma == comma
    decreases |t|, 2
  {
    ElemIsLegal(t);
    var e, u := ReadElem(t).value, ReadElem(t).rest;
    SeqIsLegal(u, false);
    var q, rest := ReadSeq(u, false).value, ReadSeq(u, false).rest;
    Assoc(ItemsText(q.items), q.post, rest);
    assert ([Item(lead, comma, e)] + q.items)[1..] == q.items;
  }

  lemma {:induction false} AltsIsLegal(s: string)
    requires ReadAlts(s).Got?
    ensures LegalAlts(ReadAlts(s).value, ReadAlts(s).rest)
    decreases |s|, 4
  {
    SeqIsLegal(s, true);
    var q, t := ReadSeq(s, true).value, ReadSeq(s, true).rest;
    MoreIsLegal(t);
    assert ([q] + ReadMore(t).value)[1..] == ReadMore(t).value;
  }

  lemma {:induction false} MoreIsLegal(s: string)
    requires !GapStarts(s) && SeqEnds(s) && ReadMore(s).Got?
    ensures LegalMore(ReadMore(s).value, ReadMore(s).rest)
    decreases |s|, 3
  {
    if At(s, '|') {
      SeqIsLegal(s[1..], true);
      var q, t := ReadSeq(s[1..], true).value, ReadSeq(s[1..], true).rest;
      MoreIsLegal(t);
      assert ([q] + ReadMore(t).value)[1..] == ReadMore(t).value;
    }
  }

  lemma ProdIsLegal(lead: string, s: string)
    requires s != "" && IsGap(lead) && ReadProd(lead, s).Got?
    ensures LegalProd(ReadProd(lead, s).value, ReadProd(lead, s).rest)
  {
    var n := Run(NameChars, s);
    SkipIsGap(s[n..]);
    BodyIsLegal(lead, s[..n], Skip(s[n..]).value, Skip(s[n..]).rest);
  }

  lemma BodyIsLegal(lead: string, name: string, mid: string, t: string)
    requires DefStarts(t) && ReadBody(lead, name, mid, t).Got?
    requires IsGap(lead) && ValidName(name) && IsGap(mid)
    ensures LegalProd(ReadBody(lead, name, mid, t).value, ReadBody(lead, name, mid, t).rest)
  {
    var u := t[|DefText(t[0] == ':')|..];
    AltsIsLegal(u);
    var v := ReadAlts(u).rest;
    Ends(v);
    if At(v, ';') { Head(v, ';'); }
  }

  lemma {:induction false} FileIsLegal(s: string)
    requires ReadFile(s).Got?
    ensures LegalFile(ReadFile(s).value)
    decreases |s|
  {
    SkipIsGap(s);
    var lead, s1 := Skip(s).value, Skip(s).rest;
    if s1 != "" {
      ProdIsLegal(lead, s1);
      var p, s2 := ReadProd(lead, s1).value, ReadProd(lead, s1).rest;
      FileIsLegal(s2);
      assert ([p] + ReadFile(s2).value.prods)[1..] == ReadFile(s2).value.prods;
    }
  }

  /** A source is read exactly when it is the text of a legal file, and then as that file. */
  lemma AcceptedTexts(s: string, f: File)
    ensures ReadFile(s) == Got(f, "") <==> LegalFile(f) && FileText(f) == s
  {
    if ReadFile(s) == Got(f, "") {
      FileIsLegal(s);
    }
    if LegalFile(f) {
      ReadsFile(f);
    }
  }
}
