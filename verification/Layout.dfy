/**
 Layout does not matter. A file is spaced when every gap is whitespace and whole comments and no
 two tokens run together; its rules may be written with `::=` or `=`, its items with commas or
 without, its rules with `;` or without. Nothing here looks past two neighbours, and yet the
 spaced files are exactly the ones the reader, which looks ahead, gives back.
 */
module Layout {
  import opened Wrappers
  import opened Text
  import opened CharClass
  import opened Syntax
  import opened Grammar
  import opened Reader
  import opened Legal
  import opened RoundTrip

  predicate SpacedAtom(a: Atom) {
    match a
    case Name(n) => ValidName(n)
    case Quoted(q, b) => (q == '"' || q == '\'') && b != "" && All(StringChars(q), b)
    case Hex(d) => d != "" && All(HexDigits, d) && HexValue(d) <= MAX_CODE_POINT
    case Class(neg, b) => b != "" && All(ClassChars, b) && Parts(b).Fine? && (neg || b[0] != '^')
    case Paren(alts) => SpacedAlts(alts)
  }

  predicate SpacedElem(e: Elem) {
    SpacedAtom(e.atom) && All(Postfixes, e.posts)
  }

  /** Whether a text right after an element is not read as more of it. */
  predicate Clear(e: Elem, s: string) {
    && !Next(Postfixes, s)
    && (e.posts == "" && e.atom.Name? ==> !Next(NameChars, s))
    && (e.posts == "" && e.atom.Hex? ==> !Next(HexDigits, s))
  }

  /** Items after one another, behind `prev`: a gap or a comma where two would run together. */
  predicate SpacedItems(items: seq<Item>, prev: Option<Elem>) {
    items != [] ==>
      && var i := items[0];
      && IsGap(i.lead) && (i.comma.Some? ==> prev.Some? && IsGap(i.comma.value))
      && (prev.Some? && GapText(i) == "" ==> Clear(prev.value, ElemText(i.elem)))
      && SpacedElem(i.elem)
      && SpacedItems(items[1..], Some(i.elem))
  }

  predicate SpacedSeq(q: Seq) {
    q.items != [] && SpacedItems(q.items, None) && IsGap(q.post)
  }

  predicate SpacedAlts(alts: seq<Seq>) {
    alts != [] && SpacedSeq(alts[0]) && SpacedMore(alts[1..])
  }

  predicate SpacedMore(alts: seq<Seq>) {
    alts != [] ==> SpacedSeq(alts[0]) && SpacedMore(alts[1..])
  }

  /** Whether a text right after alternatives is not read as more of their last element. */
  predicate EndClear(q: Seq, s: string) {
    q.items != [] && (q.post == "" ==> Clear(q.items[|q.items| - 1].elem, s))
  }

  predicate SpacedProd(p: Prod) {
    IsGap(p.lead) && ValidName(p.name) && IsGap(p.mid) && SpacedAlts(p.alts)
  }

  /** Rules after one another: the gap behind a rule without `;` is filed with that rule. */
  predicate SpacedProds(ps: seq<Prod>, tail: string) {
    if ps == [] then IsGap(tail)
    else
      && SpacedProd(ps[0])
      && SpacedProds(ps[1..], tail)
      && (ps[0].semi || (if |ps| == 1 then tail == ""
                         else ps[1].lead == "" && EndClear(ps[0].alts[|ps[0].alts| - 1], ps[1].name)))
  }

  predicate SpacedFile(f: File) {
    SpacedProds(f.prods, f.tail)
  }

  // ---- what constructs begin with

  /** What an element, a gap or alternatives may begin with. */
  predicate Opening(s: string) {
    s != "" && s[0] !in ",*+?|);=:"
  }

  lemma OpeningJoined(a: string, b: string)
    requires Opening(a) || (a == "" && Opening(b))
    ensures Opening(a + b)
  {
    if a == "" { Ends(b); }
  }

  lemma AtomOpening(a: Atom)
    requires SpacedAtom(a)
    ensures Opening(AtomText(a))
    ensures !a.Name? ==> !Next(NameChars, AtomText(a))
    ensures !a.Paren? ==> AtomText(a)[0] !in "(/ \t\r\n"
  {
    if a.Paren? {
      Assoc("(", AltsText(a.alts), ")");
      Push('(', AltsText(a.alts) + ")");
    }
  }

  lemma ElemOpening(e: Elem)
    requires SpacedElem(e)
    ensures Opening(ElemText(e))
  {
    AtomOpening(e.atom);
    OpeningJoined(AtomText(e.atom), e.posts);
  }

  lemma AltsOpening(alts: seq<Seq>)
    requires SpacedAlts(alts)
    ensures Opening(AltsText(alts))
  {
    var q := alts[0];
    var i := q.items[0];
    assert SpacedSeq(q) && SpacedItems(q.items, None) && SpacedElem(i.elem);
    ElemOpening(i.elem);
    if i.lead != "" { assert GapStep(i.lead) > 0; }
    OpeningJoined(i.lead, ElemText(i.elem));
    OpeningJoined(i.lead + ElemText(i.elem), ItemsText(q.items[1..]));
    OpeningJoined(ItemsText(q.items), q.post);
    OpeningJoined(SeqText(q), MoreText(alts[1..]));
  }

  /** An element does not open a comment. */
  lemma ElemNoGap(e: Elem, rest: string)
    requires SpacedElem(e)
    ensures !GapStarts(ElemText(e) + rest)
  {
    var a := AtomText(e.atom);
    Assoc(a, e.posts, rest);
    AtomOpening(e.atom);
    assert (a + (e.posts + rest))[0] == a[0];
    if e.atom.Paren? {
      var t := AltsText(e.atom.alts);
      AltsOpening(e.atom.alts);
      assert a == "(" + t + ")";
      assert a[1] == t[0] && (a + (e.posts + rest))[1] == t[0];
    }
  }

  // ---- what is not taken for a rule's start

  /** Whether a name before this text is no rule's name: no definition follows the gap. */
  predicate Undefining(s: string) {
    match Skip(s)
    case Bad(_, _) => true
    case Got(_, r) => !DefStarts(r)
  }

  /** A name starts a rule only where a definition follows it. */
  lemma NameRuns(n: string, rest: string)
    requires ValidName(n) && !Next(NameChars, rest) && Undefining(rest)
    ensures !RuleStarts(n + rest)
  {
    RunIs(NameChars, n, rest);
    RuleNext(n + rest, |n|, rest);
  }

  lemma RuleNext(s: string, n: nat, rest: string)
    requires Run(NameChars, s) == n && s[n..] == rest && Undefining(rest)
    ensures !RuleStarts(s)
  {
  }

  /** A postfix operator is no part of a gap, a name or a code point, and no definition. */
  lemma PostsUndefining(posts: string, rest: string)
    requires All(Postfixes, posts) && Undefining(rest)
    ensures Undefining(posts + rest)
    ensures posts != "" ==> !Next(NameChars, posts + rest) && !Next(HexDigits, posts + rest)
    ensures posts == "" ==> posts + rest == rest
  {
    if posts == "" {
      Ends(rest);
    } else {
      assert (posts + rest)[0] == posts[0];
      PostHead(posts + rest);
    }
  }

  lemma PostHead(s: string)
    requires Next(Postfixes, s)
    ensures Undefining(s) && !Next(NameChars, s) && !Next(HexDigits, s)
  {
    hide GapStep;
    assert s[0] != '/' && s[0] != '(';
    assert !Opens(s);
    SkipUnfolds(s);
  }

  /** An element is not taken for the end of its concatenation. */
  lemma ElemContinues(e: Elem, rest: string)
    requires SpacedElem(e) && Clear(e, rest) && Undefining(rest)
    ensures !SeqEnds(ElemText(e) + rest)
  {
    var a := AtomText(e.atom);
    Assoc(a, e.posts, rest);
    AtomOpening(e.atom);
    assert (a + (e.posts + rest))[0] == a[0];
    if e.atom.Name? {
      PostsUndefining(e.posts, rest);
      NameRuns(e.atom.name, e.posts + rest);
    } else {
      assert Run(NameChars, a + (e.posts + rest)) == 0;
    }
  }

  // ---- spaced constructs are legal

  /** What may follow a concatenation: its end, clear of its last element. */
  ghost predicate After(q: Seq, rest: string) {
    !GapStarts(rest) && SeqEnds(rest) && EndClear(q, rest)
  }

  lemma EndUndefining(q: Seq, rest: string)
    requires IsGap(q.post) && After(q, rest)
    ensures Clear(q.items[|q.items| - 1].elem, q.post + rest) && Undefining(q.post + rest)
  {
    SkipGap(q.post, rest);
    EndsUndefined(rest);
    GapClear(q.post, q.items[|q.items| - 1].elem, rest);
  }

  /** Nothing runs into a gap. */
  lemma GapClear(t: string, e: Elem, rest: string)
    requires IsGap(t) && (t == "" ==> Clear(e, rest))
    ensures Clear(e, t + rest)
  {
    if t == "" {
      Ends(rest);
    } else {
      assert (t + rest)[0] == t[0];
      assert GapStep(t) > 0;
    }
  }

  lemma EndsUndefined(rest: string)
    requires SeqEnds(rest)
    ensures !DefStarts(rest)
  {
  }

  lemma ItemUndefining(i: Item, e: Elem, t: string)
    requires IsGap(i.lead) && !GapStarts(t) && Opening(t)
    requires GapText(i) == "" ==> Clear(e, t)
    ensures Clear(e, GapText(i) + t) && Undefining(GapText(i) + t)
  {
    if i.comma.None? {
      SkipGap(i.lead, t);
      GapClear(i.lead, e, t);
    } else {
      var u := "," + (i.comma.value + t);
      CommaText(i, t);
      Push(',', i.comma.value + t);
      SkipGap(i.lead, u);
      GapClear(i.lead, e, u);
    }
  }

  lemma {:induction false} AtomLegal(a: Atom, rest: string)
    requires SpacedAtom(a)
    requires (a.Name? ==> !Next(NameChars, rest)) && (a.Hex? ==> !Next(HexDigits, rest))
    ensures LegalAtom(a, rest)
    decreases a, 0
  {
    hide SpacedAlts, LegalAlts, AltsText, Run;
    if a.Paren? { ParenLegal(a.alts, rest); }
  }

  lemma {:induction false} ParenLegal(alts: seq<Seq>, rest: string)
    requires SpacedAlts(alts)
    ensures LegalAlts(alts, ")" + rest)
    decreases alts, 2
  {
    hide SpacedItems, LegalAlts, AltsText, Run;
    Push(')', rest);
    LastSpaced(alts);
    AltsLegal(alts, ")" + rest);
  }

  lemma {:induction false} ItemsLegal(items: seq<Item>, q: Seq, rest: string, prev: Option<Elem>)
    requires SpacedItems(items, prev) && IsGap(q.post) && After(q, rest)
    requires if items == [] then prev == Some(q.items[|q.items| - 1].elem)
             else items[|items| - 1] == q.items[|q.items| - 1]
    ensures LegalItems(items, q.post + rest)
    ensures var s := ItemsText(items) + (q.post + rest);
            prev.Some? ==> Undefining(s) && Clear(prev.value, s)
    decreases items
  {
    if items == [] {
      Ends(q.post + rest);
      EndUndefining(q, rest);
    } else {
      hide SpacedItems, SpacedElem, LegalItems, LegalElem, LegalGap, Clear, Undefining, IsGap, After, GapText, ElemText;
      var i, u := items[0], ItemsText(items[1..]) + (q.post + rest);
      SpacedFirst(items, prev);
      ItemsLegal(items[1..], q, rest, Some(i.elem));
      ElemLegal(i.elem, u);
      LegalFirst(items, q.post + rest);
      if prev.Some? {
        BehindElem(i, prev.value, u);
        Assoc3(GapText(i), ElemText(i.elem), ItemsText(items[1..]), q.post + rest);
      }
    }
  }

  lemma SpacedFirst(items: seq<Item>, prev: Option<Elem>)
    requires items != [] && SpacedItems(items, prev)
    ensures var i := items[0];
            && SpacedElem(i.elem) && LegalGap(i) && IsGap(i.lead) && SpacedItems(items[1..], Some(i.elem))
            && (prev.Some? && GapText(i) == "" ==> Clear(prev.value, ElemText(i.elem)))
  {
  }

  lemma LegalFirst(items: seq<Item>, rest: string)
    requires items != [] && LegalGap(items[0]) && LegalItems(items[1..], rest)
    requires var u := ItemsText(items[1..]) + rest;
             && LegalElem(items[0].elem, u)
             && !GapStarts(ElemText(items[0].elem) + u) && !SeqEnds(ElemText(items[0].elem) + u)
    ensures LegalItems(items, rest)
  {
  }

  /** An element is legal before a text that is not read as more of it. */
  lemma {:induction false} ElemLegal(e: Elem, u: string)
    requires SpacedElem(e) && Clear(e, u) && Undefining(u)
    ensures LegalElem(e, u) && !GapStarts(ElemText(e) + u) && !SeqEnds(ElemText(e) + u)
    decreases e, 1
  {
    PostsUndefining(e.posts, u);
    AtomLegal(e.atom, e.posts + u);
    ElemContinues(e, u);
    ElemNoGap(e, u);
  }

  /** Nor is an item, its gap included, read as more of the element it stands behind. */
  lemma BehindElem(i: Item, e: Elem, u: string)
    requires SpacedElem(i.elem) && IsGap(i.lead) && (GapText(i) == "" ==> Clear(e, ElemText(i.elem)))
    requires !GapStarts(ElemText(i.elem) + u)
    ensures var s := GapText(i) + (ElemText(i.elem) + u); Undefining(s) && Clear(e, s)
  {
    hide SpacedElem, IsGap, Undefining, GapText, ElemText;
    ElemOpening(i.elem);
    OpeningJoined(ElemText(i.elem), u);
    assert (ElemText(i.elem) + u)[0] == ElemText(i.elem)[0];
    ItemUndefining(i, e, ElemText(i.elem) + u);
  }

  lemma {:induction false} AltsLegal(alts: seq<Seq>, rest: string)
    requires SpacedAlts(alts) && !At(rest, '|') && After(alts[|alts| - 1], rest)
    ensures LegalAlts(alts, rest)
    decreases alts, 1
  {
    BarAfter(alts[0], alts[1..], rest);
    ItemsLegal(alts[0].items, alts[0], MoreText(alts[1..]) + rest, None);
    if |alts| > 1 { MoreLegal(alts[1..], rest); }
  }

  lemma BarAfter(q: Seq, more: seq<Seq>, rest: string)
    requires SpacedSeq(q) && SpacedMore(more)
    requires more == [] ==> After(q, rest)
    ensures After(q, MoreText(more) + rest)
  {
    if more == [] {
      Ends(rest);
    } else {
      assert (MoreText(more) + rest)[0] == '|';
    }
  }

  lemma {:induction false} MoreLegal(alts: seq<Seq>, rest: string)
    requires alts != [] && SpacedMore(alts) && !At(rest, '|') && After(alts[|alts| - 1], rest)
    ensures LegalMore(alts, rest)
    decreases alts, 0
  {
    BarAfter(alts[0], alts[1..], rest);
    ItemsLegal(alts[0].items, alts[0], MoreText(alts[1..]) + rest, None);
    if |alts| > 1 { MoreLegal(alts[1..], rest); }
  }

  lemma {:induction false} LastSpaced(alts: seq<Seq>)
    requires alts != [] && SpacedMore(alts)
    ensures SpacedSeq(alts[|alts| - 1])
  {
    if |alts| > 1 { LastSpaced(alts[1..]); }
  }

  lemma ProdLegal(p: Prod, rest: string)
    requires SpacedProd(p) && (p.semi || (!At(rest, ';') && !At(rest, '|') && After(p.alts[|p.alts| - 1], rest)))
    ensures LegalProd(p, rest)
  {
    LastSpaced(p.alts);
    if p.semi {
      Push(';', rest);
      SemiAfter(p.alts[|p.alts| - 1], rest);
    } else {
      Ends(rest);
    }
    AltsLegal(p.alts, EndText(p.semi) + rest);
  }

  lemma SemiAfter(q: Seq, rest: string)
    requires q.items != []
    ensures After(q, ";" + rest) && !At(";" + rest, '|')
  {
    Push(';', rest);
  }

  /** A rule that follows: it ends the concatenation before it and opens no gap. */
  lemma ProdAfter(p: Prod, rest: string)
    requires SpacedProd(p) && p.lead == ""
    ensures var s := ProdText(p) + rest;
            && !GapStarts(s) && SeqEnds(s) && !At(s, ';') && !At(s, '|') && s[0] == p.name[0]
  {
    var u := AltsText(p.alts) + (EndText(p.semi) + rest);
    var t := DefText(p.colons) + u;
    AltsOpening(p.alts);
    OpeningJoined(AltsText(p.alts), EndText(p.semi) + rest);
    assert DefStarts(t) && !Begins(t, '=', '=');
    GapThenDefinition(p.mid, t);
    RunIs(NameChars, p.name, p.mid + t);
    NameHead(p.name, p.mid + t);
    Regroup(p.lead, p.name, p.mid, DefText(p.colons), AltsText(p.alts), EndText(p.semi), rest);
    Ends(p.name + (p.mid + t));
    assert RuleStarts(p.name + (p.mid + t));
  }

  lemma {:induction false} ProdsLegal(ps: seq<Prod>, tail: string)
    requires SpacedProds(ps, tail)
    ensures LegalProds(ps, tail) && IsGap(tail)
  {
    hide SpacedAlts, LegalProd, GapStarts, SeqEnds, AltsText, EndClear;
    if ps != [] {
      var rest := ProdsText(ps[1..]) + tail;
      if |ps| > 1 && !ps[0].semi {
        ProdAfter(ps[1], ProdsText(ps[2..]) + tail);
        assert ps[1..][1..] == ps[2..];
        Assoc(ProdText(ps[1]), ProdsText(ps[2..]), tail);
      }
      FirstLegal(ps, tail, rest);
      ProdsLegal(ps[1..], tail);
    }
  }

  lemma FirstLegal(ps: seq<Prod>, tail: string, rest: string)
    requires ps != [] && SpacedProds(ps, tail) && rest == ProdsText(ps[1..]) + tail
    requires |ps| > 1 && !ps[0].semi ==>
               !GapStarts(rest) && SeqEnds(rest) && !At(rest, ';') && !At(rest, '|')
               && rest != "" && ps[1].name != "" && rest[0] == ps[1].name[0]
    ensures LegalProd(ps[0], rest)
  {
    hide AltsText, LegalAlts, LegalProd, GapStarts, SeqEnds, SpacedSeq, SpacedMore, ValidName;
    LastSpaced(ps[0].alts);
    if |ps| == 1 && !ps[0].semi { NothingAfter(ps[0].alts[|ps[0].alts| - 1]); }
    ProdLegal(ps[0], rest);
  }

  lemma NothingAfter(q: Seq)
    requires q.items != []
    ensures After(q, "")
  {
  }

  // ---- legal constructs are spaced

  lemma {:induction false} AtomSpaced(a: Atom, rest: string)
    requires LegalAtom(a, rest)
    ensures SpacedAtom(a)
    decreases a, 0
  {
    if a.Paren? { AltsSpaced(a.alts, ")" + rest); }
  }

  lemma {:induction false} ItemsSpaced(items: seq<Item>, rest: string, prev: Option<Elem>)
    requires LegalItems(items, rest)
    requires prev.None? && items != [] ==> items[0].comma.None?
    requires prev.Some? ==> Clear(prev.value, ItemsText(items) + rest)
    ensures SpacedItems(items, prev)
    decreases items
  {
    if items != [] {
      var i := items[0];
      var u := ItemsText(items[1..]) + rest;
      AtomSpaced(i.elem.atom, i.elem.posts + u);
      Ends(u);
      ItemsSpaced(items[1..], rest, Some(i.elem));
      ElemOpening(i.elem);
      if prev.Some? && GapText(i) == "" {
        Ends(ElemText(i.elem));
        assert (ItemsText(items) + rest)[0] == ElemText(i.elem)[0];
      }
    }
  }

  lemma {:induction false} SeqSpaced(q: Seq, rest: string)
    requires LegalSeq(q, rest)
    ensures SpacedSeq(q) && EndClear(q, rest)
    decreases q
  {
    ItemsSpaced(q.items, q.post + rest, None);
    Ends(rest);
    EndIsClear(q.items, q.post + rest);
  }

  lemma {:induction false} EndIsClear(items: seq<Item>, rest: string)
    requires items != [] && LegalItems(items, rest)
    ensures Clear(items[|items| - 1].elem, rest)
    decreases items
  {
    if |items| > 1 {
      EndIsClear(items[1..], rest);
    } else {
      assert items[1..] == [];
      Ends(rest);
      var e := items[0].elem;
      assert LegalElem(e, rest) && LegalAtom(e.atom, e.posts + rest);
    }
  }

  lemma {:induction false} AltsSpaced(alts: seq<Seq>, rest: string)
    requires LegalAlts(alts, rest)
    ensures SpacedAlts(alts) && EndClear(alts[|alts| - 1], rest) && !GapStarts(rest)
    decreases alts, 1
  {
    SeqSpaced(alts[0], MoreText(alts[1..]) + rest);
    MoreSpaced(alts[1..], rest);
    Ends(rest);
  }

  lemma {:induction false} MoreSpaced(alts: seq<Seq>, rest: string)
    requires LegalMore(alts, rest)
    ensures SpacedMore(alts)
    ensures alts != [] ==> EndClear(alts[|alts| - 1], rest) && !GapStarts(rest)
    decreases alts, 0
  {
    if alts != [] {
      SeqSpaced(alts[0], MoreText(alts[1..]) + rest);
      MoreSpaced(alts[1..], rest);
      Ends(rest);
    }
  }

  lemma {:induction false} ProdsSpaced(ps: seq<Prod>, tail: string)
    requires LegalProds(ps, tail) && IsGap(tail)
    ensures SpacedProds(ps, tail)
  {
    if ps != [] {
      hide AltsText, SpacedAlts, LegalAlts, Clear;
      var p, rest := ps[0], ProdsText(ps[1..]) + tail;
      ProdsSpaced(ps[1..], tail);
      AltsSpaced(p.alts, EndText(p.semi) + rest);
      Ends(rest);
      if !p.semi {
        if |ps| == 1 {
          NoGap(tail, "");
          Ends(tail);
        } else {
          assert ps[1..][1..] == ps[2..];
          NextSpaced(p, ps[1], ProdsText(ps[2..]), tail);
        }
      }
    }
  }

  /** A rule behind one without `;` has no gap of its own and does not run into it. */
  lemma NextSpaced(p: Prod, n: Prod, more: string, tail: string)
    requires IsGap(n.lead) && ValidName(n.name) && p.alts != []
    requires var rest := ProdText(n) + more + tail; EndClear(p.alts[|p.alts| - 1], rest) && !GapStarts(rest)
    ensures n.lead == "" && EndClear(p.alts[|p.alts| - 1], n.name)
  {
    var t := n.name + n.mid + DefText(n.colons) + AltsText(n.alts) + EndText(n.semi) + more + tail;
    LeadFirst(n, more, tail);
    NoGap(n.lead, t);
    Ends(t);
    assert t[0] == n.name[0];
  }

  lemma LeadFirst(n: Prod, more: string, tail: string)
    ensures ProdText(n) + more + tail
         == n.lead + (n.name + n.mid + DefText(n.colons) + AltsText(n.alts) + EndText(n.semi) + more + tail)
  {
  }

  lemma NoGap(t: string, rest: string)
    requires IsGap(t) && !GapStarts(t + rest)
    ensures t == ""
  {
    if t != "" {
      var n := GapStep(t);
      CutJoined(t, rest, n);
      StepWithin(t, t + rest);
    }
  }

  // ---- the laws

  /** The reader takes exactly the texts of spaced files, whatever their gaps, commas and terminators. */
  lemma SpacedIsRead(f: File)
    ensures SpacedFile(f) <==> ReadFile(FileText(f)) == Got(f, "")
  {
    if SpacedFile(f) {
      ProdsLegal(f.prods, f.tail);
      ReadsFile(f);
    }
    if ReadFile(FileText(f)) == Got(f, "") {
      FileIsLegal(FileText(f));
      ProdsSpaced(f.prods, f.tail);
    }
  }

  /** A text is accepted exactly when it lays out some spaced file. */
  lemma AcceptedLayouts(s: string)
    ensures ReadFile(s).Got? <==> exists f :: SpacedFile(f) && FileText(f) == s
  {
    if ReadFile(s).Got? {
      var f := ReadFile(s).value;
      SpacedIsRead(f);
    }
    forall f | SpacedFile(f) && FileText(f) == s ensures ReadFile(s).Got? {
      SpacedIsRead(f);
    }
  }
}
