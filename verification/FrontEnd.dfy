/** The whole front-end: the source is read, and then its rules are checked, in that order. */
module FrontEnd {
  import opened Wrappers
  import opened Grammar
  import opened Syntax
  import opened Reader
  import opened Layout
  import opened Spans
  import opened Nullable
  import opened Scanner

  datatype Refusal = Malformed(error: ParseError) | NoRules | Duplicate(name: string) | Choices(complaint: Complaint)

  datatype Parsed = Accepted(rules: seq<Production>) | Refused(why: Refusal)

  predicate Distinct(prods: seq<Production>) {
    forall i, j | 0 <= i < j < |prods| :: prods[i].name != prods[j].name
  }

  ghost predicate Unambiguous(prods: seq<Production>) {
    forall alts | Choice(prods, alts) :: !Ambiguous(prods, alts)
  }

  /** Whether a rule has the name of one before it, and none before that does. */
  ghost predicate FirstTwice(prods: seq<Production>, name: string) {
    exists i, j :: 0 <= i < j < |prods| && prods[i].name == prods[j].name == name && Distinct(prods[..j])
  }

  /** The first name defined more than once. */
  method CheckDuplicates(prods: seq<Production>) returns (d: Option<string>)
    ensures d.None? <==> Distinct(prods)
    ensures d.Some? ==> FirstTwice(prods, d.value)
  {
    var seen: set<string> := {};
    for j := 0 to |prods|
      invariant seen == set i | 0 <= i < j :: prods[i].name
      invariant Distinct(prods[..j])
    {
      if prods[j].name in seen {
        var i :| 0 <= i < j && prods[i].name == prods[j].name;
        return Some(prods[j].name);
      }
      seen := seen + {prods[j].name};
    }
    assert prods[..|prods|] == prods;
    d := None;
  }

  /** What a source that is read well is read as, spans included. */
  function Located(src: string): seq<Production>
    requires ReadFile(src).Got?
  {
    LocProds(ReadFile(src).value.prods, src, 0)
  }

  /** The sources the front-end takes: well formed, not empty, and with rules that pass both checks. */
  ghost predicate Acceptable(src: string) {
    ReadFile(src).Got? && Located(src) != [] && Distinct(Located(src)) && Unambiguous(Located(src))
  }

  /** Reads EBNF source into the grammar IR. */
  method ParseEbnf(src: string) returns (r: Parsed)
    ensures r.Accepted? <==> Acceptable(src)
    ensures r.Accepted? ==> r.rules == Located(src)
    ensures ReadFile(src).Bad? ==>
              r == Refused(Malformed(FaultAt(src, ReadFile(src).fault, ReadFile(src).left)))
    ensures ReadFile(src).Got? ==> !(r.Refused? && r.why.Malformed?)
    ensures r.Refused? && r.why.NoRules? ==> Located(src) == []
    ensures r.Refused? && r.why.Duplicate? ==> !Distinct(Located(src)) && FirstTwice(Located(src), r.why.name)
    ensures r.Refused? && r.why.Choices? ==> Distinct(Located(src)) && !Unambiguous(Located(src))
    ensures r.Refused? && r.why.Choices? ==> FirstComplaint(Located(src), r.why.complaint)
  {
    hide ReadFile, LocProds, LineAt, ColAt;
    var s := new Scanner(src);
    var prods := s.ParseProds();
    if prods.Err? { return Refused(Malformed(prods.error)); }
    if prods.value == [] { return Refused(NoRules); }
    var d := CheckDuplicates(prods.value);
    if d.Some? { return Refused(Duplicate(d.value)); }
    var c := CheckNullableAlts(prods.value);
    if c.Some? { return Refused(Choices(c.value)); }
    r := Accepted(prods.value);
  }

  // ---- the checks do not see where an element stands

  /** The production a bare one was made from, and the other way round. */
  lemma {:induction false} BareProdIn(prods: seq<Production>, p: Production)
    requires p in prods
    ensures BareProd(p) in BareAll(prods)
  {
    if p != prods[0] { BareProdIn(prods[1..], p); }
  }

  lemma {:induction false} FullProdIn(prods: seq<Production>, b: Production) returns (p: Production)
    requires b in BareAll(prods)
    ensures p in prods && b == BareProd(p)
  {
    if b == BareProd(prods[0]) { p := prods[0]; } else { p := FullProdIn(prods[1..], b); }
  }

  function BareProd(p: Production): Production {
    Production(p.name, BareAlts(p.alts), None)
  }

  lemma {:induction false} BareAltAt(alts: seq<Sequence>, k: nat)
    requires k < |alts|
    ensures BareAlts(alts)[k].els == BareSeq(alts[k].els)
  {
    if k > 0 { BareAltAt(alts[1..], k - 1); }
  }

  lemma {:induction false} BareDerives(prods: seq<Production>, e: Element, t: Tree)
    requires Derives(prods, e, t)
    ensures DerivesEmpty(BareAll(prods), Bare(e))
    decreases t
  {
    var bare := BareAll(prods);
    match t
    case Skipped => assert Derives(bare, Bare(e), Skipped);
    case Taken(u) =>
      BareDerives(prods, e.inner, u);
      var v :| Derives(bare, Bare(e.inner), v);
      assert Derives(bare, Bare(e), Taken(v));
    case Chosen(k, ts) =>
      AllBareDerive(prods, e.alts[k].els, ts);
      BareAltAt(e.alts, k);
      var us :| DerivesAll(bare, BareSeq(e.alts[k].els), us);
      assert Derives(bare, Bare(e), Chosen(k, us));
    case Called(p, k, ts) =>
      AllBareDerive(prods, p.alts[k].els, ts);
      BareAltAt(p.alts, k);
      var us :| DerivesAll(bare, BareSeq(p.alts[k].els), us);
      BareProdIn(prods, p);
      assert Derives(bare, Bare(e), Called(BareProd(p), k, us));
  }

  lemma {:induction false} AllBareDerive(prods: seq<Production>, els: seq<Element>, ts: seq<Tree>)
    requires DerivesAll(prods, els, ts)
    ensures AllDeriveEmpty(BareAll(prods), BareSeq(els))
    decreases ts
  {
    var bare := BareAll(prods);
    if els == [] {
      assert DerivesAll(bare, [], []);
    } else {
      BareDerives(prods, els[0], ts[0]);
      AllBareDerive(prods, els[1..], ts[1..]);
      var u :| Derives(bare, Bare(els[0]), u);
      var us :| DerivesAll(bare, BareSeq(els[1..]), us);
      assert DerivesAll(bare, BareSeq(els), [u] + us);
    }
  }

  lemma {:induction false} FullDerives(prods: seq<Production>, e: Element, t: Tree)
    requires Derives(BareAll(prods), Bare(e), t)
    ensures DerivesEmpty(prods, e)
    decreases t
  {
    match t
    case Skipped => assert Derives(prods, e, Skipped);
    case Taken(u) =>
      FullDerives(prods, e.inner, u);
      var v :| Derives(prods, e.inner, v);
      assert Derives(prods, e, Taken(v));
    case Chosen(k, ts) =>
      BareAltAt(e.alts, k);
      AllFullDerive(prods, e.alts[k].els, ts);
      var us :| DerivesAll(prods, e.alts[k].els, us);
      assert Derives(prods, e, Chosen(k, us));
    case Called(b, k, ts) =>
      var p := FullProdIn(prods, b);
      BareAltAt(p.alts, k);
      AllFullDerive(prods, p.alts[k].els, ts);
      var us :| DerivesAll(prods, p.alts[k].els, us);
      assert Derives(prods, e, Called(p, k, us));
  }

  lemma {:induction false} AllFullDerive(prods: seq<Production>, els: seq<Element>, ts: seq<Tree>)
    requires DerivesAll(BareAll(prods), BareSeq(els), ts)
    ensures AllDeriveEmpty(prods, els)
    decreases ts
  {
    if els == [] {
      assert DerivesAll(prods, [], []);
    } else {
      assert BareSeq(els)[1..] == BareSeq(els[1..]);
      FullDerives(prods, els[0], ts[0]);
      AllFullDerive(prods, els[1..], ts[1..]);
      var u :| Derives(prods, els[0], u);
      var us :| DerivesAll(prods, els[1..], us);
      assert DerivesAll(prods, els, [u] + us);
    }
  }

  lemma AllDeriveBare(prods: seq<Production>, els: seq<Element>)
    ensures AllDeriveEmpty(prods, els) <==> AllDeriveEmpty(BareAll(prods), BareSeq(els))
  {
    if AllDeriveEmpty(prods, els) {
      var ts :| DerivesAll(prods, els, ts);
      AllBareDerive(prods, els, ts);
    }
    if AllDeriveEmpty(BareAll(prods), BareSeq(els)) {
      var ts :| DerivesAll(BareAll(prods), BareSeq(els), ts);
      AllFullDerive(prods, els, ts);
    }
  }

  lemma AmbiguousBare(prods: seq<Production>, alts: seq<Sequence>)
    ensures Ambiguous(prods, alts) <==> Ambiguous(BareAll(prods), BareAlts(alts))
  {
    forall i | 0 <= i < |alts|
      ensures AllDeriveEmpty(prods, alts[i].els) <==> AllDeriveEmpty(BareAll(prods), BareAlts(alts)[i].els)
    {
      BareAltAt(alts, i);
      AllDeriveBare(prods, alts[i].els);
    }
  }

  // groups, with spans and without

  lemma {:induction false} BareGroupIn(alts: seq<Sequence>, e: Element)
    requires GroupIn(alts, e)
    ensures GroupIn(BareAlts(alts), Bare(e))
    decreases e
  {
    match e
    case Group(own, _) => if alts != own { BareGroupInAlts(alts, own); }
    case Opt(i) => BareGroupIn(alts, i);
    case Star(i) => BareGroupIn(alts, i);
    case Plus(i) => BareGroupIn(alts, i);
  }

  lemma {:induction false} BareGroupInSeq(alts: seq<Sequence>, els: seq<Element>)
    requires GroupInSeq(alts, els)
    ensures GroupInSeq(BareAlts(alts), BareSeq(els))
    decreases els
  {
    assert BareSeq(els)[1..] == BareSeq(els[1..]);
    if GroupIn(alts, els[0]) { BareGroupIn(alts, els[0]); } else { BareGroupInSeq(alts, els[1..]); }
  }

  lemma {:induction false} BareGroupInAlts(alts: seq<Sequence>, own: seq<Sequence>)
    requires GroupInAlts(alts, own)
    ensures GroupInAlts(BareAlts(alts), BareAlts(own))
    decreases own
  {
    assert BareAlts(own)[1..] == BareAlts(own[1..]);
    if GroupInSeq(alts, own[0].els) { BareGroupInSeq(alts, own[0].els); } else { BareGroupInAlts(alts, own[1..]); }
  }

  lemma {:induction false} FullGroupIn(b: seq<Sequence>, e: Element) returns (alts: seq<Sequence>)
    requires GroupIn(b, Bare(e))
    ensures GroupIn(alts, e) && b == BareAlts(alts)
    decreases e
  {
    match e
    case Group(own, _) => if b == BareAlts(own) { alts := own; } else { alts := FullGroupInAlts(b, own); }
    case Opt(i) => alts := FullGroupIn(b, i);
    case Star(i) => alts := FullGroupIn(b, i);
    case Plus(i) => alts := FullGroupIn(b, i);
  }

  lemma {:induction false} FullGroupInSeq(b: seq<Sequence>, els: seq<Element>) returns (alts: seq<Sequence>)
    requires GroupInSeq(b, BareSeq(els))
    ensures GroupInSeq(alts, els) && b == BareAlts(alts)
    decreases els
  {
    assert BareSeq(els)[1..] == BareSeq(els[1..]);
    if GroupIn(b, Bare(els[0])) { alts := FullGroupIn(b, els[0]); } else { alts := FullGroupInSeq(b, els[1..]); }
  }

  lemma {:induction false} FullGroupInAlts(b: seq<Sequence>, own: seq<Sequence>) returns (alts: seq<Sequence>)
    requires GroupInAlts(b, BareAlts(own))
    ensures GroupInAlts(alts, own) && b == BareAlts(alts)
    decreases own
  {
    assert BareAlts(own)[1..] == BareAlts(own[1..]);
    if GroupInSeq(b, BareSeq(own[0].els)) { alts := FullGroupInSeq(b, own[0].els); }
    else { alts := FullGroupInAlts(b, own[1..]); }
  }

  /** A grammar is unambiguous with its spans exactly when it is without them. */
  lemma UnambiguousBare(prods: seq<Production>)
    ensures Unambiguous(prods) <==> Unambiguous(BareAll(prods))
  {
    var bare := BareAll(prods);
    if Unambiguous(bare) {
      forall alts | Choice(prods, alts) ensures !Ambiguous(prods, alts) {
        ChoiceBare(prods, alts);
        AmbiguousBare(prods, alts);
      }
    }
    if Unambiguous(prods) {
      forall b | Choice(bare, b) ensures !Ambiguous(bare, b) {
        var alts := ChoiceFull(prods, b);
        AmbiguousBare(prods, alts);
      }
    }
  }

  lemma ChoiceBare(prods: seq<Production>, alts: seq<Sequence>)
    requires Choice(prods, alts)
    ensures Choice(BareAll(prods), BareAlts(alts))
  {
    var p :| p in prods && (alts == p.alts || GroupInAlts(alts, p.alts));
    BareProdIn(prods, p);
    if alts != p.alts { BareGroupInAlts(alts, p.alts); }
    assert BareProd(p).alts == BareAlts(p.alts);
  }

  lemma ChoiceFull(prods: seq<Production>, b: seq<Sequence>) returns (alts: seq<Sequence>)
    requires Choice(BareAll(prods), b)
    ensures Choice(prods, alts) && b == BareAlts(alts)
  {
    var q :| q in BareAll(prods) && (b == q.alts || GroupInAlts(b, q.alts));
    var p := FullProdIn(prods, q);
    if b == q.alts { alts := p.alts; } else { alts := FullGroupInAlts(b, p.alts); }
  }

  lemma {:induction false} DistinctBare(prods: seq<Production>)
    ensures Distinct(prods) <==> Distinct(BareAll(prods))
  {
    forall i | 0 <= i < |prods| ensures BareAll(prods)[i].name == prods[i].name { BareNameAt(prods, i); }
  }

  lemma {:induction false} BareNameAt(prods: seq<Production>, i: nat)
    requires i < |prods|
    ensures BareAll(prods)[i].name == prods[i].name
  {
    if i > 0 { BareNameAt(prods[1..], i - 1); }
  }

  /** What the front-end decides about a source, said of the grammar alone. */
  lemma AcceptableBare(src: string)
    requires ReadFile(src).Got?
    ensures var g := EraseProds(ReadFile(src).value.prods);
            && BareAll(Located(src)) == g
            && (Acceptable(src) <==> g != [] && Distinct(g) && Unambiguous(g))
  {
    hide ReadFile, LocProds, EraseProds, Distinct, Unambiguous, BareAll;
    LocatedProds(ReadFile(src).value.prods, src, 0);
    UnambiguousBare(Located(src));
    DistinctBare(Located(src));
    BareLength(Located(src));
  }

  lemma BareLength(prods: seq<Production>)
    ensures BareAll(prods) == [] <==> prods == []
  {
  }
}
