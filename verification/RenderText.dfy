/**
 The text the render writes is the text of its syntax, and that syntax is spaced: whatever the render
 writes, the reader reads back, as the grammar the syntax stands for.
 */
module RenderText {
  import opened Wrappers
  import opened Text
  import G = Grammar
  import opened Syntax
  import opened Reader
  import opened Layout
  import opened RenderSyntax
  import R = Render

  // ---- texts joined

  lemma {:induction false} ItemsJoined(a: seq<Item>, b: seq<Item>)
    ensures ItemsText(a + b) == ItemsText(a) + ItemsText(b)
  {
    if a == [] {
      Ends(ItemsText(b));
      assert a + b == b;
    } else {
      assert (a + b)[1..] == a[1..] + b;
      ItemsJoined(a[1..], b);
      Assoc(GapText(a[0]) + ElemText(a[0].elem), ItemsText(a[1..]), ItemsText(b));
    }
  }

  lemma GluedText(e: Elem)
    ensures ItemsText([Glued(e)]) == " " + ElemText(e)
  {
    assert [Glued(e)][1..] == [];
    Ends(" " + ElemText(e));
  }

  lemma PostText(e: Elem, op: char)
    ensures ElemText(Post(e, op)) == ElemText(e) + [op]
  {
    Assoc(AtomText(e.atom), e.posts, [op]);
  }

  lemma ParensText(items: seq<Item>)
    ensures AtomText(Parens(items)) == "(" + (ItemsText(items) + " ") + ")"
  {
    var q := Seq(items, " ");
    assert [q][1..] == [];
    Ends(SeqText(q));
    assert AltsText([q]) == SeqText(q);
  }

  // ---- counted repetitions

  lemma {:induction false} RepeatBack(n: nat, s: string)
    ensures R.Repeat(n, s) + s == s + R.Repeat(n, s)
  {
    if n == 0 {
      Ends(s);
    } else {
      RepeatBack(n - 1, s);
      Assoc(s, R.Repeat(n - 1, s), s);
    }
  }

  lemma {:induction false} OptionsWritten(e: Elem, n: nat)
    requires n > 0
    ensures ElemText(OptionElem(e, n)) == R.OptionsText(ElemText(e), n)
  {
    var a := ElemText(e);
    PostText(e, '?');
    if n == 1 {
      assert R.OptionsText(a, 1) == "" + a + "?" + "";
    } else {
      var inner := OptionElem(e, n - 1);
      OptionsWritten(e, n - 1);
      var items := [Glued(e), Glued(inner)];
      ParensText(items);
      ItemsJoined([Glued(e)], [Glued(inner)]);
      assert [Glued(e)] + [Glued(inner)] == items;
      GluedText(e);
      GluedText(inner);
      RepeatBack(n - 2, " )?");
      NestedText(a, R.Repeat(n - 2, "( " + a + " "), R.Repeat(n - 2, " )?"));
    }
  }

  /** One option around the others. */
  lemma NestedText(a: string, left: string, right: string)
    requires right + " )?" == " )?" + right
    ensures "(" + ((" " + a) + (" " + (left + a + "?" + right)) + " ") + ")" + "?"
         == ("( " + a + " " + left) + a + "?" + (" )?" + right)
  {
    var m := left + a + "?" + right;
    assert "(" + ((" " + a) + (" " + m) + " ") + ")" + "?" == "( " + a + " " + m + " )?";
    assert "( " + a + " " + m + " )?" == "( " + a + " " + (left + a + "?") + (right + " )?");
  }

  lemma {:induction false} CopiesWritten(e: Elem, n: nat)
    ensures ItemsText(CopyItems(e, n)) + " " == " " + R.Copies(n, ElemText(e))
  {
    if n == 0 {
      assert "" + " " == " " + "";
    } else {
      CopiesWritten(e, n - 1);
      ItemsJoined([Glued(e)], CopyItems(e, n - 1));
      GluedText(e);
      Assoc(" " + ElemText(e), ItemsText(CopyItems(e, n - 1)), " ");
      assert " " + ElemText(e) + (" " + R.Copies(n - 1, ElemText(e)))
          == " " + (ElemText(e) + " " + R.Copies(n - 1, ElemText(e)));
    }
  }

  lemma RepWritten(e: Elem, min: nat, max: Option<nat>)
    requires min > 0 || max != Some(0)
    ensures ItemsText(RepItems(e, min, max)) == " " + R.CopiesText(ElemText(e), min, max)
  {
    hide ItemsText, R.Copies, R.OptionsText, OptionElem, CopyItems;
    var a, opts := ElemText(e), R.Options(min, max);
    var copies, lead := CopyItems(e, min), R.Copies(min, a);
    CopiesWritten(e, min);
    if max.None? {
      ItemsJoined(copies, [Glued(Post(e, '*'))]);
      GluedText(Post(e, '*'));
      PostText(e, '*');
      BlankMoves(ItemsText(copies), lead, a + "*");
      Assoc(lead, a, "*");
    } else if opts > 0 {
      ItemsJoined(copies, [Glued(OptionElem(e, opts))]);
      GluedText(OptionElem(e, opts));
      OptionsWritten(e, opts);
      BlankMoves(ItemsText(copies), lead, R.OptionsText(a, opts));
    } else {
      Ends(copies);
      var t := ItemsText(copies) + " ";
      assert t[..|t| - 1] == ItemsText(copies);
      assert (" " + lead)[..|lead|] == " " + lead[..|lead| - 1];
    }
  }

  lemma BlankMoves(t: string, lead: string, u: string)
    requires t + " " == " " + lead
    ensures t + (" " + u) == " " + (lead + u)
  {
    Assoc(t, " ", u);
    Assoc(" ", lead, u);
  }

  // ---- elements

  lemma {:induction false} AtomWritten(at: nat, p: R.Part)
    requires Sound(p) && R.AtomAt(at, p).Text?
    ensures ElemText(ElemOf(p)) == R.AtomAt(at, p).text
    decreases p, 1
  {
    if p.Rep? {
      PartWritten(at + 1, p);
      ParensText(RepItems(ElemOf(p.item), p.min, p.max));
      Blanks(R.PartAt(at + 1, p).text);
      Ends(AtomText(ElemOf(p).atom));
    } else {
      OneWritten(at, p);
    }
  }

  lemma Blanks(t: string)
    ensures "(" + (" " + t + " ") + ")" == "( " + t + " )"
    ensures "(" + (" " + t + " ") + ")" + "?" == "( " + t + " )?"
  {
  }

  lemma {:induction false} OneWritten(at: nat, p: R.Part)
    requires Sound(p) && !p.Rep? && R.PartAt(at, p).Text?
    ensures ElemText(ElemOf(p)) == R.PartAt(at, p).text
    decreases p, 0
  {
    hide ItemsText, LeafAtom, LeafImage, SoundLeaf;
    match p
    case Tok(l) =>
      LeafIsRead(l);
      Ends(AtomText(LeafAtom(l)));
    case Star(i) => AtomWritten(at + 1, i); PostText(ElemOf(i), '*'); Ends(ElemText(ElemOf(i)));
    case Plus(i) => AtomWritten(at + 1, i); PostText(ElemOf(i), '+'); Ends(ElemText(ElemOf(i)));
    case Opt(i) => AtomWritten(at + 1, i); PostText(ElemOf(i), '?'); Ends(ElemText(ElemOf(i)));
    case Group(alts) =>
      AltsWritten(at + 1, alts, " ");
      Blanks(R.AltsAt(at + 1, alts).text);
      Ends(AtomText(ElemOf(p).atom));
    case Tail(q) =>
      AltWritten(at + 2, q.els);
      ParensText(AltItems(q.els));
      Blanks(R.AltAt(at + 2, q.els).text);
    case Grp(q) =>
      AltWritten(at + 1, q.els);
      ParensText(AltItems(q.els));
      Blanks(R.AltAt(at + 1, q.els).text);
      Ends(AtomText(ElemOf(p).atom));
  }

  lemma {:induction false} PartWritten(at: nat, p: R.Part)
    requires Sound(p) && R.PartAt(at, p).Text?
    ensures ItemsText(ItemsOf(p)) == " " + R.PartAt(at, p).text
    decreases p, if p.Rep? then 0 else 1
  {
    hide R.CopiesText, ItemsText, RepItems;
    if p.Rep? {
      var deep := R.RepDepth(at, R.Options(p.min, p.max), p.max);
      AtomWritten(deep, p.item);
      RepWritten(ElemOf(p.item), p.min, p.max);
    } else {
      OneWritten(at, p);
      GluedText(ElemOf(p));
    }
  }

  lemma {:induction false} AltWritten(at: nat, els: seq<R.Part>)
    requires SoundAlt(els) && els != [] && R.AltAt(at, els).Text?
    ensures ItemsText(AltItems(els)) == " " + R.AltAt(at, els).text
    decreases els
  {
    hide R.PartAt, ItemsText, Sound, ItemsOf;
    PartWritten(at, els[0]);
    ItemsJoined(ItemsOf(els[0]), AltItems(els[1..]));
    if |els| == 1 {
      NoItems();
      Ends(ItemsText(ItemsOf(els[0])));
    } else {
      AltWritten(at, els[1..]);
      BlankBetween(R.PartAt(at, els[0]).text, R.AltAt(at, els[1..]).text);
    }
  }

  lemma NoItems()
    ensures AltItems([]) == [] && ItemsText([]) == ""
  {
  }

  lemma BlankBetween(a: string, b: string)
    ensures (" " + a) + (" " + b) == " " + (a + " " + b)
  {
  }

  // ---- alternatives

  lemma {:induction false} FilledWritten(at: nat, alts: seq<R.Alt>, last: string)
    requires SoundAlts(alts) && R.SomeFilled(alts) && R.GlueAll(R.FilledAt(at, alts), " | ").Text?
    ensures AltsText(FilledSeqs(alts, last)) == " " + R.GlueAll(R.FilledAt(at, alts), " | ").text + last
    decreases alts, 0
  {
    hide R.AltAt, AltItems, ItemsText, SoundAlt;
    var ws := R.FilledAt(at, alts);
    if alts[0].els == [] {
      assert ws == R.FilledAt(at, alts[1..]);
      FilledWritten(at, alts[1..], last);
    } else {
      var t := R.AltAt(at, alts[0].els);
      var more := R.FilledAt(at, alts[1..]);
      assert ws == [t] + more && ws[1..] == more;
      NoneFilled(at, alts[1..], last);
      var q := Seq(AltItems(alts[0].els), if R.SomeFilled(alts[1..]) then " " else last);
      var qs := FilledSeqs(alts[1..], last);
      assert ([q] + qs)[1..] == qs;
      if R.SomeFilled(alts[1..]) {
        AltWritten(at, alts[0].els);
        FilledWritten(at, alts[1..], last);
        MoreOfAlts(qs);
        BarBetween(t.text, R.GlueAll(more, " | ").text, last);
      } else {
        AltWritten(at, alts[0].els);
        Ends(SeqText(q));
      }
    }
  }

  lemma {:induction false} NoneFilled(at: nat, alts: seq<R.Alt>, last: string)
    ensures R.SomeFilled(alts) <==> R.FilledAt(at, alts) != []
    ensures R.SomeFilled(alts) <==> FilledSeqs(alts, last) != []
    ensures |R.FilledAt(at, alts)| == |FilledSeqs(alts, last)|
    decreases alts
  {
    if alts != [] { NoneFilled(at, alts[1..], last); }
  }

  lemma MoreOfAlts(qs: seq<Seq>)
    requires qs != []
    ensures MoreText(qs) == "|" + AltsText(qs)
  {
    Assoc("|", SeqText(qs[0]), MoreText(qs[1..]));
  }

  lemma BarBetween(a: string, b: string, last: string)
    ensures (" " + a + " ") + ("|" + (" " + b + last)) == " " + (a + " | " + b) + last
  {
  }

  lemma {:induction false} AltsWritten(at: nat, alts: seq<R.Alt>, last: string)
    requires SoundAlts(alts) && R.AltsAt(at, alts).Text?
    ensures AltsText(SeqsOf(alts, last)) == " " + R.AltsAt(at, alts).text + last
    decreases alts, 1
  {
    hide R.FilledAt, FilledSeqs, ItemsText, R.GlueAll, R.SomeFilled, R.AllFilled;
    if R.AllFilled(alts) {
      FilledWritten(at, alts, last);
    } else {
      FilledWritten(at + 2, alts, " ");
      var e := Elem(Paren(FilledSeqs(alts, " ")), "?");
      var q := Seq([Glued(e)], last);
      assert [q][1..] == [];
      GluedText(e);
      Blanks(R.GlueAll(R.FilledAt(at + 2, alts), " | ").text);
      Ends(SeqText(q));
    }
  }

  // ---- the file

  lemma RuleWritten(r: R.Rule)
    requires SoundAlts(r.alts) && R.RuleText(r).Text?
    ensures ProdText(ProdOf(r)) == R.RuleText(r).text + "\n"
  {
    hide SeqsOf, R.AltsAt;
    AltsWritten(1, r.alts, "\n");
    RuleParts(r.name, R.AltsAt(1, r.alts).text);
  }

  lemma RuleParts(n: string, t: string)
    ensures "" + n + " " + "::=" + (" " + t + "\n") + "" == (n + " ::= ") + t + "" + "\n"
  {
  }

  predicate SoundRules(rs: seq<R.Rule>) {
    rs != [] ==> SoundAlts(rs[0].alts) && SoundRules(rs[1..])
  }

  lemma {:induction false} RulesWritten(rs: seq<R.Rule>)
    requires SoundRules(rs) && rs != [] && R.GlueAll(R.RuleTexts(rs), "\n").Text?
    ensures ProdsText(ProdsOf(rs)) == R.GlueAll(R.RuleTexts(rs), "\n").text + "\n"
  {
    hide R.RuleText, ProdOf, ProdText;
    RuleWritten(rs[0]);
    assert R.RuleTexts(rs)[1..] == R.RuleTexts(rs[1..]);
    assert ProdsOf(rs)[1..] == ProdsOf(rs[1..]);
    if |rs| == 1 {
      Ends(ProdText(ProdOf(rs[0])));
    } else {
      RulesWritten(rs[1..]);
      var a, b := R.RuleText(rs[0]).text, R.GlueAll(R.RuleTexts(rs[1..]), "\n").text;
      Assoc(a + "\n", b, "\n");
    }
  }

  /** What the render writes for a file is the text of its syntax. */
  lemma FileWritten(rs: seq<R.Rule>)
    requires SoundRules(rs) && R.FileAt(rs).Text?
    ensures FileText(FileOf(rs)) == R.FileAt(rs).text
  {
    hide R.GlueAll, R.RuleTexts, ProdsOf;
    if rs != [] {
      RulesWritten(rs);
      Ends(ProdsText(ProdsOf(rs)));
    } else {
      NoRulesWritten();
    }
  }

  lemma NoRulesWritten()
    ensures R.GlueAll(R.RuleTexts([]), "\n") == R.Text("") && ProdsOf([]) == []
  {
  }
}
