/**
 Which arrangements of characters the reader gives back: each construct is legal before the text
 that follows it. Reading and flattening are inverse on these, so they are the accepted sources.
 */
module Legal {
  import opened Wrappers
  import opened Text
  import opened CharClass
  import opened Syntax
  import opened Reader

  ghost predicate LegalAtom(a: Atom, rest: string) {
    match a
    case Name(n) => ValidName(n) && !Next(NameChars, rest)
    case Quoted(q, b) => (q == '"' || q == '\'') && b != "" && All(StringChars(q), b)
    case Hex(d) => d != "" && All(HexDigits, d) && HexValue(d) <= MAX_CODE_POINT && !Next(HexDigits, rest)
    case Class(neg, b) => b != "" && All(ClassChars, b) && Parts(b).Fine? && (neg || b[0] != '^')
    case Paren(alts) => LegalAlts(alts, ")" + rest)
  }

  ghost predicate LegalElem(e: Elem, rest: string) {
    All(Postfixes, e.posts) && !Next(Postfixes, rest) && LegalAtom(e.atom, e.posts + rest)
  }

  ghost predicate LegalGap(i: Item) {
    IsGap(i.lead) && (i.comma.Some? ==> IsGap(i.comma.value))
  }

  /** Items, none of which looks like the end of the concatenation they are in. */
  ghost predicate LegalItems(items: seq<Item>, rest: string) {
    items != [] ==>
      && LegalGap(items[0])
      && var u := ItemsText(items[1..]) + rest;
      && LegalElem(items[0].elem, u)
      && !GapStarts(ElemText(items[0].elem) + u)
      && !SeqEnds(ElemText(items[0].elem) + u)
      && LegalItems(items[1..], rest)
  }

  ghost predicate LegalSeq(q: Seq, rest: string) {
    && q.items != [] && q.items[0].comma.None?
    && LegalItems(q.items, q.post + rest)
    && IsGap(q.post) && !GapStarts(rest) && SeqEnds(rest)
  }

  ghost predicate LegalAlts(alts: seq<Seq>, rest: string) {
    alts != [] && LegalSeq(alts[0], MoreText(alts[1..]) + rest) && LegalMore(alts[1..], rest)
  }

  ghost predicate LegalMore(alts: seq<Seq>, rest: string) {
    if alts == [] then !At(rest, '|')
    else LegalSeq(alts[0], MoreText(alts[1..]) + rest) && LegalMore(alts[1..], rest)
  }

  ghost predicate LegalProd(p: Prod, rest: string) {
    && IsGap(p.lead) && ValidName(p.name) && IsGap(p.mid)
    && LegalAlts(p.alts, EndText(p.semi) + rest)
    && (p.semi || !At(rest, ';'))
  }

  ghost predicate LegalProds(ps: seq<Prod>, rest: string) {
    ps != [] ==> LegalProd(ps[0], ProdsText(ps[1..]) + rest) && LegalProds(ps[1..], rest)
  }

  ghost predicate LegalFile(f: File) {
    LegalProds(f.prods, f.tail) && IsGap(f.tail)
  }

  // ---- gaps read back

  lemma {:induction false} SkipGap(t: string, rest: string)
    requires IsGap(t)
    requires !GapStarts(rest)
    ensures Skip(t + rest) == Got(t, rest)
  {
    if t == "" {
      Ends(rest);
    } else {
      var n := GapStep(t);
      CutJoined(t, rest, n);
      StepWithin(t, t + rest);
      SkipGap(t[n..], rest);
      Cut(t, n);
    }
  }

  lemma {:induction false} SkipIsGap(s: string)
    requires Skip(s).Got?
    ensures IsGap(Skip(s).value)
  {
    if GapStarts(s) {
      var t, n := Skip(s).value, GapStep(s);
      SkipIsGap(s[n..]);
      assert t[n..] == Skip(s[n..]).value;
      assert t[..n] == s[..n];
      StepWithin(s, t);
    }
  }

  lemma StepWithin(s: string, t: string)
    requires var n := GapStep(s); 0 < n <= |t| && t[..n] == s[..n]
    ensures GapStep(t) == GapStep(s) && GapStarts(t)
  {
    var n := GapStep(s);
    assert forall i | 0 <= i < n :: t[i] == t[..n][i] == s[..n][i] == s[i];
    if !Next(Spaces, s) {
      FindWithin(s[2..], t[2..], '*', if s[0] == '/' then '/' else ')');
    }
  }

  /** Where two texts agree up to the end of what is found, it is found there in both. */
  lemma {:induction false} FindWithin(s: string, t: string, a: char, b: char)
    requires var k := Find(s, a, b); k >= 0 && k + 2 <= |t| && forall i | 0 <= i < k + 2 :: t[i] == s[i]
    ensures Find(t, a, b) == Find(s, a, b)
    decreases Find(s, a, b)
  {
    hide Find;
    FindUnfolds(s, a, b);
    FindUnfolds(t, a, b);
    if Find(s, a, b) > 0 { FindWithin(s[1..], t[1..], a, b); }
  }

  lemma FindUnfolds(s: string, a: char, b: char)
    ensures Find(s, a, b) == if Begins(s, a, b) then 0
                             else if s == "" then -1
                             else var k := Find(s[1..], a, b); if k < 0 then -1 else k + 1
  {
  }
}
