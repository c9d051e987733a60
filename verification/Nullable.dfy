/**
 Which rules derive the empty string, and the one ambiguity the front-end refuses: a choice two of
 whose alternatives derive it. Both are proved against explicit derivation trees.
 */
module Nullable {
  import opened Wrappers
  import opened Grammar

  // ---- what deriving the empty string means

  /** A derivation of the empty string: of an element, or of each element of an alternative. */
  datatype Tree =
    | Skipped
    | Taken(inner: Tree)
    | Chosen(k: nat, parts: seq<Tree>)
    | Called(rule: Production, k: nat, parts: seq<Tree>)

  ghost predicate Derives(prods: seq<Production>, e: Element, t: Tree)
    decreases t
  {
    match t
    case Skipped => e.Opt? || e.Star?
    case Taken(u) => (e.Opt? || e.Star? || e.Plus?) && Derives(prods, e.inner, u)
    case Chosen(k, ts) => e.Group? && k < |e.alts| && DerivesAll(prods, e.alts[k].els, ts)
    case Called(p, k, ts) =>
      e.Ref? && p in prods && p.name == e.name && k < |p.alts| && DerivesAll(prods, p.alts[k].els, ts)
  }

  ghost predicate DerivesAll(prods: seq<Production>, els: seq<Element>, ts: seq<Tree>)
    decreases ts
  {
    |els| == |ts| && forall i | 0 <= i < |ts| :: Derives(prods, els[i], ts[i])
  }

  ghost predicate DerivesEmpty(prods: seq<Production>, e: Element) {
    exists t :: Derives(prods, e, t)
  }

  ghost predicate AllDeriveEmpty(prods: seq<Production>, els: seq<Element>) {
    exists ts :: DerivesAll(prods, els, ts)
  }

  /** Whether a rule of the grammar derives the empty string. */
  ghost predicate RuleDerivesEmpty(prods: seq<Production>, name: string) {
    DerivesEmpty(prods, Ref(name, None))
  }

  // ---- the check's own recursion, given the rules known to derive the empty string

  predicate ElDerivesEmpty(e: Element, nullable: set<string>) {
    match e
    case Opt(_) => true
    case Star(_) => true
    case Plus(i) => ElDerivesEmpty(i, nullable)
    case Group(alts, _) => SomeAltDerivesEmpty(alts, nullable)
    case Ref(n, _) => n in nullable
    case Term(_, _) => false
    case Regex(_, _, _) => false
  }

  predicate AltDerivesEmpty(els: seq<Element>, nullable: set<string>) {
    els == [] || (ElDerivesEmpty(els[0], nullable) && AltDerivesEmpty(els[1..], nullable))
  }

  predicate SomeAltDerivesEmpty(alts: seq<Sequence>, nullable: set<string>) {
    alts != [] && (AltDerivesEmpty(alts[0].els, nullable) || SomeAltDerivesEmpty(alts[1..], nullable))
  }

  /** How many alternatives derive the empty string. */
  function Count(alts: seq<Sequence>, nullable: set<string>): nat {
    if alts == [] then 0
    else (if AltDerivesEmpty(alts[0].els, nullable) then 1 else 0) + Count(alts[1..], nullable)
  }

  ghost predicate Sound(prods: seq<Production>, nullable: set<string>) {
    forall n | n in nullable :: RuleDerivesEmpty(prods, n)
  }

  ghost predicate Settled(p: Production, nullable: set<string>) {
    SomeAltDerivesEmpty(p.alts, nullable) ==> p.name in nullable
  }

  ghost predicate Closed(prods: seq<Production>, nullable: set<string>) {
    forall p | p in prods :: Settled(p, nullable)
  }

  // ---- soundness: what the recursion accepts has a derivation

  lemma {:induction false} ElHasTree(prods: seq<Production>, e: Element, s: set<string>)
    requires Sound(prods, s) && ElDerivesEmpty(e, s)
    ensures DerivesEmpty(prods, e)
    decreases e, 1
  {
    match e
    case Opt(_) => assert Derives(prods, e, Skipped);
    case Star(_) => assert Derives(prods, e, Skipped);
    case Plus(i) =>
      ElHasTree(prods, i, s);
      var t :| Derives(prods, i, t);
      assert Derives(prods, e, Taken(t));
    case Group(alts, _) =>
      var k := SomeAltHasTree(prods, alts, s);
      var ts :| DerivesAll(prods, alts[k].els, ts);
      assert Derives(prods, e, Chosen(k, ts));
    case Ref(n, _) =>
      var t :| Derives(prods, Ref(n, None), t);
      assert Derives(prods, e, t);
  }

  lemma {:induction false} AltHasTree(prods: seq<Production>, els: seq<Element>, s: set<string>)
    requires Sound(prods, s) && AltDerivesEmpty(els, s)
    ensures AllDeriveEmpty(prods, els)
    decreases els
  {
    if els == [] {
      assert DerivesAll(prods, els, []);
    } else {
      ElHasTree(prods, els[0], s);
      AltHasTree(prods, els[1..], s);
      var t :| Derives(prods, els[0], t);
      var ts :| DerivesAll(prods, els[1..], ts);
      assert forall i | 1 <= i < |els| :: els[i] == els[1..][i - 1];
      assert DerivesAll(prods, els, [t] + ts);
    }
  }

  lemma {:induction false} SomeAltHasTree(prods: seq<Production>, alts: seq<Sequence>, s: set<string>) returns (k: nat)
    requires Sound(prods, s) && SomeAltDerivesEmpty(alts, s)
    ensures k < |alts| && AllDeriveEmpty(prods, alts[k].els)
    decreases alts, 0
  {
    if AltDerivesEmpty(alts[0].els, s) {
      AltHasTree(prods, alts[0].els, s);
      k := 0;
    } else {
      k := SomeAltHasTree(prods, alts[1..], s);
      k := k + 1;
    }
  }

  // ---- completeness: a closed set accepts whatever has a derivation

  lemma {:induction false} TreeIsFound(prods: seq<Production>, e: Element, t: Tree, s: set<string>)
    requires Closed(prods, s) && Derives(prods, e, t)
    ensures ElDerivesEmpty(e, s)
    decreases t, 0
  {
    match t
    case Skipped =>
    case Taken(u) => if e.Plus? { TreeIsFound(prods, e.inner, u, s); }
    case Chosen(k, ts) =>
      TreesAreFound(prods, e.alts[k].els, ts, s);
      SomeAlt(e.alts, k, s);
    case Called(p, k, ts) =>
      TreesAreFound(prods, p.alts[k].els, ts, s);
      SomeAlt(p.alts, k, s);
  }

  lemma {:induction false} TreesAreFound(prods: seq<Production>, els: seq<Element>, ts: seq<Tree>, s: set<string>)
    requires Closed(prods, s) && DerivesAll(prods, els, ts)
    ensures AltDerivesEmpty(els, s)
    decreases ts
  {
    if els != [] {
      TreeIsFound(prods, els[0], ts[0], s);
      TreesAreFound(prods, els[1..], ts[1..], s);
    }
  }

  lemma {:induction false} SomeAlt(alts: seq<Sequence>, k: nat, s: set<string>)
    requires k < |alts| && AltDerivesEmpty(alts[k].els, s)
    ensures SomeAltDerivesEmpty(alts, s)
  {
    if k > 0 { SomeAlt(alts[1..], k - 1, s); }
  }

  /** The least fixed point: on a sound and closed set, the recursion decides derivability. */
  lemma FixedPointDecides(prods: seq<Production>, s: set<string>, e: Element)
    requires Sound(prods, s) && Closed(prods, s)
    ensures ElDerivesEmpty(e, s) <==> DerivesEmpty(prods, e)
  {
    if ElDerivesEmpty(e, s) { ElHasTree(prods, e, s); }
    if DerivesEmpty(prods, e) {
      var t :| Derives(prods, e, t);
      TreeIsFound(prods, e, t, s);
    }
  }

  lemma AltDecides(prods: seq<Production>, s: set<string>, els: seq<Element>)
    requires Sound(prods, s) && Closed(prods, s)
    ensures AltDerivesEmpty(els, s) <==> AllDeriveEmpty(prods, els)
  {
    if AltDerivesEmpty(els, s) { AltHasTree(prods, els, s); }
    if AllDeriveEmpty(prods, els) {
      var ts :| DerivesAll(prods, els, ts);
      TreesAreFound(prods, els, ts, s);
    }
  }

  /** The order of the productions, and how often each is listed, make no difference. */
  lemma {:induction false} OrderDoesNotMatter(prods: seq<Production>, others: seq<Production>, e: Element, t: Tree)
    requires forall p :: p in prods <==> p in others
    requires Derives(prods, e, t)
    ensures Derives(others, e, t)
    decreases t
  {
    match t
    case Skipped =>
    case Taken(u) => OrderDoesNotMatter(prods, others, e.inner, u);
    case Chosen(k, ts) =>
      var els := e.alts[k].els;
      forall i | 0 <= i < |ts| ensures Derives(others, els[i], ts[i]) {
        OrderDoesNotMatter(prods, others, els[i], ts[i]);
      }
      assert DerivesAll(others, els, ts);
    case Called(p, k, ts) =>
      var els := p.alts[k].els;
      forall i | 0 <= i < |ts| ensures Derives(others, els[i], ts[i]) {
        OrderDoesNotMatter(prods, others, els[i], ts[i]);
      }
      assert DerivesAll(others, els, ts);
  }

  // ---- the loop that finds the nullable rules

  /** The rules that derive the empty string: passes over the productions until one changes nothing. */
  method NullableRules(prods: seq<Production>) returns (nullable: set<string>)
    ensures forall n :: n in nullable <==> RuleDerivesEmpty(prods, n)
    ensures Sound(prods, nullable) && Closed(prods, nullable)
  {
    hide Sound, AltDerivesEmpty, ElDerivesEmpty, RuleDerivesEmpty;
    NoneSound(prods);
    nullable := {};
    ghost var names := set p | p in prods :: p.name;
    var changed := true;
    while changed
      invariant Sound(prods, nullable) && nullable <= names
      invariant !changed ==> Closed(prods, nullable)
      decreases |names - nullable|, changed
    {
      changed := false;
      ghost var before := nullable;
      for j := 0 to |prods|
        invariant Sound(prods, nullable) && before <= nullable <= names
        invariant changed <==> nullable != before
        invariant !changed ==> forall i | 0 <= i < j :: Settled(prods[i], nullable)
      {
        if prods[j].name in nullable { continue; }
        var alts := prods[j].alts;
        ghost var was := nullable;
        for k := 0 to |alts|
          invariant nullable == was && prods[j].name !in nullable
          invariant SomeAltDerivesEmpty(alts, nullable) == SomeAltDerivesEmpty(alts[k..], nullable)
        {
          if AltDerivesEmpty(alts[k].els, nullable) {
            RuleIsNullable(prods, j, k, nullable);
            SoundMore(prods, nullable, prods[j].name);
            nullable := nullable + {prods[j].name};
            changed := true;
            break;
          }
          assert alts[k..][1..] == alts[k + 1..];
        }
      }
      if changed { Shrinks(names, before, nullable); }
    }
    forall n ensures n in nullable <==> RuleDerivesEmpty(prods, n) {
      FixedPointDecides(prods, nullable, Ref(n, None));
      RefDecides(prods, nullable, n);
    }
  }

  lemma RefDecides(prods: seq<Production>, s: set<string>, n: string)
    ensures ElDerivesEmpty(Ref(n, None), s) <==> n in s
    ensures DerivesEmpty(prods, Ref(n, None)) <==> RuleDerivesEmpty(prods, n)
  {
  }

  lemma NoneSound(prods: seq<Production>)
    ensures Sound(prods, {})
  {
  }

  lemma SoundMore(prods: seq<Production>, s: set<string>, n: string)
    requires Sound(prods, s) && RuleDerivesEmpty(prods, n)
    ensures Sound(prods, s + {n})
  {
  }

  lemma RuleIsNullable(prods: seq<Production>, j: nat, k: nat, s: set<string>)
    requires j < |prods| && k < |prods[j].alts|
    requires Sound(prods, s) && AltDerivesEmpty(prods[j].alts[k].els, s)
    ensures RuleDerivesEmpty(prods, prods[j].name)
  {
    AltHasTree(prods, prods[j].alts[k].els, s);
    var ts :| DerivesAll(prods, prods[j].alts[k].els, ts);
    assert Derives(prods, Ref(prods[j].name, None), Called(prods[j], k, ts));
  }

  lemma Shrinks(names: set<string>, before: set<string>, after: set<string>)
    requires before <= after <= names && before != after
    ensures |names - after| < |names - before|
  {
    assert names - after < names - before by {
      var n :| n in after && n !in before;
      assert n in names - before && n !in names - after;
    }
    Proper(names - after, names - before);
  }

  lemma Proper(a: set<string>, b: set<string>)
    requires a < b
    ensures |a| < |b|
  {
    assert b == a + (b - a) && a !! (b - a) && |b - a| > 0;
  }

  // ---- the check on choices

  /** A choice with more than one alternative that derives the empty string: where, and how many. */
  datatype Complaint = Complaint(rule: string, inGroup: bool, n: nat)

  method CountEmpty(alts: seq<Sequence>, nullable: set<string>) returns (n: nat)
    ensures n == Count(alts, nullable)
  {
    n := 0;
    for i := 0 to |alts|
      invariant n + Count(alts[i..], nullable) == Count(alts, nullable)
    {
      if AltDerivesEmpty(alts[i].els, nullable) { n := n + 1; }
      assert alts[i..][1..] == alts[i + 1..];
    }
  }

  /** Whether some alternatives are those of a group in an element, at any depth. */
  ghost predicate GroupIn(alts: seq<Sequence>, e: Element) {
    match e
    case Group(own, _) => alts == own || GroupInAlts(alts, own)
    case Opt(i) => GroupIn(alts, i)
    case Star(i) => GroupIn(alts, i)
    case Plus(i) => GroupIn(alts, i)
    case _ => false
  }

  ghost predicate GroupInSeq(alts: seq<Sequence>, els: seq<Element>) {
    els != [] && (GroupIn(alts, els[0]) || GroupInSeq(alts, els[1..]))
  }

  ghost predicate GroupInAlts(alts: seq<Sequence>, own: seq<Sequence>) {
    own != [] && (GroupInSeq(alts, own[0].els) || GroupInAlts(alts, own[1..]))
  }

  /** A choice of the grammar: a production's alternatives, or those of a group at any depth. */
  ghost predicate Choice(prods: seq<Production>, alts: seq<Sequence>) {
    exists p :: p in prods && (alts == p.alts || GroupInAlts(alts, p.alts))
  }

  /** Whether two different alternatives of a choice derive the empty string. */
  ghost predicate Ambiguous(prods: seq<Production>, alts: seq<Sequence>) {
    exists i, j :: 0 <= i < j < |alts| && AllDeriveEmpty(prods, alts[i].els) && AllDeriveEmpty(prods, alts[j].els)
  }

  /** No group in the element is ambiguous, given the nullable rules. */
  ghost predicate GroupsClear(e: Element, s: set<string>) {
    forall alts | GroupIn(alts, e) :: Count(alts, s) <= 1
  }

  ghost predicate SeqClear(els: seq<Element>, s: set<string>) {
    forall alts | GroupInSeq(alts, els) :: Count(alts, s) <= 1
  }

  ghost predicate AltsClear(own: seq<Sequence>, s: set<string>) {
    forall alts | GroupInAlts(alts, own) :: Count(alts, s) <= 1
  }

  /** The first ambiguous group of an element, outermost first and in source order. */
  method CheckGroups(e: Element, rule: string, nullable: set<string>) returns (c: Option<Complaint>)
    ensures c.None? <==> GroupsClear(e, nullable)
    ensures c.Some? ==> c.value.rule == rule && c.value.inGroup && c.value.n > 1
                        && exists alts :: GroupIn(alts, e) && c.value.n == Count(alts, nullable)
    decreases e
  {
    c := None;
    match e
    case Group(alts, _) =>
      var n := CountEmpty(alts, nullable);
      assert GroupIn(alts, e);
      if n > 1 { return Some(Complaint(rule, true, n)); }
      c := CheckAlts(alts, rule, nullable);
    case Opt(i) => c := CheckGroups(i, rule, nullable);
    case Star(i) => c := CheckGroups(i, rule, nullable);
    case Plus(i) => c := CheckGroups(i, rule, nullable);
    case _ =>
  }

  method CheckAlts(alts: seq<Sequence>, rule: string, nullable: set<string>) returns (c: Option<Complaint>)
    ensures c.None? <==> AltsClear(alts, nullable)
    ensures c.Some? ==> c.value.rule == rule && c.value.inGroup && c.value.n > 1
                        && exists g :: GroupInAlts(g, alts) && c.value.n == Count(g, nullable)
    decreases alts
  {
    for i := 0 to |alts|
      invariant AltsClear(alts[i..], nullable) ==> AltsClear(alts, nullable)
      invariant forall g :: GroupInAlts(g, alts[i..]) ==> GroupInAlts(g, alts)
    {
      var els := alts[i].els;
      assert alts[i..][1..] == alts[i + 1..] && alts[i..][0] == alts[i];
      for j := 0 to |els|
        invariant SeqClear(els[j..], nullable) ==> SeqClear(els, nullable)
        invariant forall g :: GroupInSeq(g, els[j..]) ==> GroupInSeq(g, els)
      {
        assert els[j..][1..] == els[j + 1..] && els[j..][0] == els[j];
        c := CheckGroups(els[j], rule, nullable);
        if c.Some? {
          ghost var g :| GroupIn(g, els[j]) && c.value.n == Count(g, nullable);
          assert GroupInSeq(g, els[j..]) && GroupInAlts(g, alts[i..]);
          return;
        }
      }
      assert SeqClear(els, nullable);
    }
    c := None;
  }

  /** How many alternatives derive the empty string. */
  ghost function Empties(prods: seq<Production>, alts: seq<Sequence>): nat {
    if alts == [] then 0
    else (if AllDeriveEmpty(prods, alts[0].els) then 1 else 0) + Empties(prods, alts[1..])
  }

  ghost predicate ClearRule(prods: seq<Production>, p: Production) {
    forall alts | alts == p.alts || GroupInAlts(alts, p.alts) :: !Ambiguous(prods, alts)
  }

  /** Whether a complaint is of a choice of the i-th rule: its own, or a group's in it, earlier rules being clear. */
  ghost predicate ComplaintAt(prods: seq<Production>, i: nat, alts: seq<Sequence>, c: Complaint) {
    && i < |prods| && c.rule == prods[i].name && c.n == Empties(prods, alts) > 1
    && (if c.inGroup then GroupInAlts(alts, prods[i].alts) && !Ambiguous(prods, prods[i].alts)
        else alts == prods[i].alts)
    && forall j | 0 <= j < i :: ClearRule(prods, prods[j])
  }

  ghost predicate FirstComplaint(prods: seq<Production>, c: Complaint) {
    exists i: nat, alts :: ComplaintAt(prods, i, alts, c)
  }

  lemma {:induction false} CountIsEmpties(prods: seq<Production>, alts: seq<Sequence>, s: set<string>)
    requires Sound(prods, s) && Closed(prods, s)
    ensures Count(alts, s) == Empties(prods, alts)
  {
    hide Sound, Closed;
    if alts != [] {
      AltDecides(prods, s, alts[0].els);
      CountIsEmpties(prods, alts[1..], s);
    }
  }

  lemma EarlierClear(prods: seq<Production>, i: nat, s: set<string>)
    requires Sound(prods, s) && Closed(prods, s) && i <= |prods|
    requires forall p | p in prods[..i] :: Count(p.alts, s) <= 1 && AltsClear(p.alts, s)
    ensures forall j | 0 <= j < i :: ClearRule(prods, prods[j])
  {
    hide Sound, Closed, Ambiguous, Count, GroupInAlts;
    forall j | 0 <= j < i ensures ClearRule(prods, prods[j]) {
      assert prods[j] == prods[..i][j];
      var p := prods[j];
      assert p in prods[..i];
      forall alts | alts == p.alts || GroupInAlts(alts, p.alts) ensures !Ambiguous(prods, alts) {
        CountDecides(prods, alts, s);
      }
    }
  }

  /** A complaint is of an ambiguous choice. */
  lemma ComplaintIsAmbiguous(prods: seq<Production>, c: Complaint) returns (alts: seq<Sequence>)
    requires FirstComplaint(prods, c)
    ensures Choice(prods, alts) && Ambiguous(prods, alts)
  {
    hide Ambiguous;
    var i: nat, own :| ComplaintAt(prods, i, own, c);
    alts := own;
    assert prods[i] in prods;
    TwoEmpties(prods, alts);
  }

  lemma {:induction false} TwoEmpties(prods: seq<Production>, alts: seq<Sequence>)
    requires Empties(prods, alts) > 1
    ensures Ambiguous(prods, alts)
  {
    if AllDeriveEmpty(prods, alts[0].els) {
      var k := OneEmpty(prods, alts[1..]);
      assert AllDeriveEmpty(prods, alts[k + 1].els);
    } else {
      TwoEmpties(prods, alts[1..]);
      var i, j :| 0 <= i < j < |alts[1..]| && AllDeriveEmpty(prods, alts[1..][i].els)
                  && AllDeriveEmpty(prods, alts[1..][j].els);
      assert AllDeriveEmpty(prods, alts[i + 1].els) && AllDeriveEmpty(prods, alts[j + 1].els);
    }
  }

  lemma {:induction false} OneEmpty(prods: seq<Production>, alts: seq<Sequence>) returns (k: nat)
    requires Empties(prods, alts) > 0
    ensures k < |alts| && AllDeriveEmpty(prods, alts[k].els)
  {
    if AllDeriveEmpty(prods, alts[0].els) {
      k := 0;
    } else {
      k := OneEmpty(prods, alts[1..]);
      k := k + 1;
    }
  }

  /** The first choice of the grammar that is ambiguous. */
  method CheckNullableAlts(prods: seq<Production>) returns (c: Option<Complaint>)
    ensures c.None? <==> forall alts | Choice(prods, alts) :: !Ambiguous(prods, alts)
    ensures c.Some? ==> FirstComplaint(prods, c.value)
    ensures c.Some? ==> exists alts :: Choice(prods, alts) && Ambiguous(prods, alts)
  {
    hide Sound, Closed, Ambiguous, Empties, Count, GroupInAlts, ClearRule;
    var nullable := NullableRules(prods);
    for i := 0 to |prods|
      invariant forall p | p in prods[..i] :: Count(p.alts, nullable) <= 1 && AltsClear(p.alts, nullable)
    {
      var p := prods[i];
      assert p in prods;
      var n := CountEmpty(p.alts, nullable);
      if n > 1 {
        CountDecides(prods, p.alts, nullable);
        assert Choice(prods, p.alts);
        EarlierClear(prods, i, nullable);
        CountIsEmpties(prods, p.alts, nullable);
        c := Some(Complaint(p.name, false, n));
        assert ComplaintAt(prods, i, p.alts, c.value);
        return;
      }
      CountDecides(prods, p.alts, nullable);
      c := CheckAlts(p.alts, p.name, nullable);
      if c.Some? {
        ghost var g :| GroupInAlts(g, p.alts) && c.value.n == Count(g, nullable);
        CountDecides(prods, g, nullable);
        assert Choice(prods, g);
        EarlierClear(prods, i, nullable);
        CountIsEmpties(prods, g, nullable);
        assert ComplaintAt(prods, i, g, c.value);
        return;
      }
      assert prods[..i + 1] == prods[..i] + [p];
    }
    assert prods[..|prods|] == prods;
    forall alts | Choice(prods, alts) ensures !Ambiguous(prods, alts) {
      var p :| p in prods && (alts == p.alts || GroupInAlts(alts, p.alts));
      CountDecides(prods, alts, nullable);
    }
    c := None;
  }

  /** Counting alternatives decides whether two of them derive the empty string. */
  lemma CountDecides(prods: seq<Production>, alts: seq<Sequence>, s: set<string>)
    requires Sound(prods, s) && Closed(prods, s)
    ensures Count(alts, s) > 1 <==> Ambiguous(prods, alts)
  {
    if Count(alts, s) > 1 {
      var i, j := TwoCounted(alts, s);
      AltDecides(prods, s, alts[i].els);
      AltDecides(prods, s, alts[j].els);
    }
    if Ambiguous(prods, alts) {
      var i, j :| 0 <= i < j < |alts| && AllDeriveEmpty(prods, alts[i].els) && AllDeriveEmpty(prods, alts[j].els);
      AltDecides(prods, s, alts[i].els);
      AltDecides(prods, s, alts[j].els);
      CountsTwo(alts, i, j, s);
    }
  }

  lemma {:induction false} OneCounted(alts: seq<Sequence>, s: set<string>) returns (i: nat)
    requires Count(alts, s) > 0
    ensures i < |alts| && AltDerivesEmpty(alts[i].els, s)
  {
    if AltDerivesEmpty(alts[0].els, s) {
      i := 0;
    } else {
      i := OneCounted(alts[1..], s);
      i := i + 1;
    }
  }

  lemma {:induction false} TwoCounted(alts: seq<Sequence>, s: set<string>) returns (i: nat, j: nat)
    requires Count(alts, s) > 1
    ensures i < j < |alts| && AltDerivesEmpty(alts[i].els, s) && AltDerivesEmpty(alts[j].els, s)
  {
    if AltDerivesEmpty(alts[0].els, s) {
      i := 0;
      j := OneCounted(alts[1..], s);
      j := j + 1;
    } else {
      i, j := TwoCounted(alts[1..], s);
      i, j := i + 1, j + 1;
    }
  }

  lemma {:induction false} CountsOne(alts: seq<Sequence>, i: nat, s: set<string>)
    requires i < |alts| && AltDerivesEmpty(alts[i].els, s)
    ensures Count(alts, s) > 0
  {
    if i > 0 { CountsOne(alts[1..], i - 1, s); }
  }

  lemma {:induction false} CountsTwo(alts: seq<Sequence>, i: nat, j: nat, s: set<string>)
    requires i < j < |alts| && AltDerivesEmpty(alts[i].els, s) && AltDerivesEmpty(alts[j].els, s)
    ensures Count(alts, s) > 1
  {
    if i == 0 { CountsOne(alts[1..], j - 1, s); } else { CountsTwo(alts[1..], i - 1, j - 1, s); }
  }

  /** An ambiguous choice has two different derivations of the empty string, as a group and as a rule. */
  lemma TwoDerivations(prods: seq<Production>, alts: seq<Sequence>)
    returns (i: nat, j: nat, ts: seq<Tree>, us: seq<Tree>)
    requires Ambiguous(prods, alts)
    ensures Chosen(i, ts) != Chosen(j, us)
    ensures Derives(prods, Group(alts, None), Chosen(i, ts)) && Derives(prods, Group(alts, None), Chosen(j, us))
    ensures forall p | p in prods && p.alts == alts ::
              && Called(p, i, ts) != Called(p, j, us)
              && Derives(prods, Ref(p.name, None), Called(p, i, ts))
              && Derives(prods, Ref(p.name, None), Called(p, j, us))
  {
    i, j :| 0 <= i < j < |alts| && AllDeriveEmpty(prods, alts[i].els) && AllDeriveEmpty(prods, alts[j].els);
    ts :| DerivesAll(prods, alts[i].els, ts);
    us :| DerivesAll(prods, alts[j].els, us);
  }
}
