/**
 The Rust front-end's account of depth: two registers on the parse context, written by the actions of the
 meta-grammar in the order they fire on a tree, and saved and put back by each group.
 */
module DepthRegisters {
  import opened Wrappers
  import opened Text
  import G = Grammar
  import opened Syntax
  import opened Layout

  /** The deepest the IR may nest, and the rule level past which no group opens. */
  const MAX_NEST_DEPTH := 130
  const MAX_GROUP_DEPTH := 520

  /** What an action refuses a source for. */
  datatype Refusal = TooManyLevels | TooDeep

  /** How many groups nest in an element. */
  function GroupNest(e: G.Element): nat {
    match e
    case Group(alts, _) => 1 + GroupsOfAlts(alts)
    case Opt(i) => GroupNest(i)
    case Star(i) => GroupNest(i)
    case Plus(i) => GroupNest(i)
    case _ => 0
  }

  function GroupsOfSeq(es: seq<G.Element>): nat {
    if es == [] then 0 else G.Larger(GroupNest(es[0]), GroupsOfSeq(es[1..]))
  }

  function GroupsOfAlts(alts: seq<G.Sequence>): nat {
    if alts == [] then 0 else G.Larger(GroupsOfSeq(alts[0].els), GroupsOfAlts(alts[1..]))
  }

  /** The rule level of the n-th group that is open: four rules a group, the first at six. */
  function RuleLevel(n: nat): nat {
    4 * n + 2
  }

  predicate DeepFits(depth: nat) {
    depth <= MAX_NEST_DEPTH
  }

  /** Whether so many groups around an element's own leave every one a rule level. */
  predicate GroupsFit(groups: nat, nest: nat) {
    nest > 0 ==> RuleLevel(groups + nest) <= MAX_GROUP_DEPTH
  }

  class Context {
    /** NEST: how deep the last element to complete is. */
    var nest: nat
    /** LEVEL: the largest such depth since the innermost open group opened. */
    var level: nat
    /** Every element the actions have built, whatever became of it. */
    ghost var built: set<G.Element>

    /** Neither register is ever past the limit, and nothing past it is ever built. */
    ghost predicate Valid()
      reads this
    {
      DeepFits(nest) && DeepFits(level) && forall x | x in built :: DeepFits(G.Depth(x))
    }

    constructor ()
      ensures Valid() && nest == 0 && level == 0 && built == {}
    {
      nest, level, built := 0, 0, {};
    }

    // ---- the actions

    /** Every atom counts as a terminal until it turns out to be a group. */
    method AtomBo()
      requires Valid()
      modifies this
      ensures Valid() && nest == 1 && level == old(level) && built == old(built)
    {
      nest := 1;
    }

    /** A group opens: the enclosing level's maximum is saved on the group's own rule. */
    method AtomLp(d: nat) returns (outerMax: nat, e: Option<Refusal>)
      requires Valid()
      modifies this
      ensures Valid() && nest == old(nest) && built == old(built)
      ensures e == if d > 520 then Some(TooManyLevels) else None
      ensures if e.None? then outerMax == old(level) && level == 0 else level == old(level)
    {
      outerMax, e := 0, None;
      if MAX_GROUP_DEPTH < d { return 0, Some(TooManyLevels); }
      outerMax := level;
      level := 0;
    }

    /** A group closes: its level's maximum gives its depth, and it is built only if that is in bounds. */
    method AtomGroupClose(outerMax: nat, alts: seq<G.Sequence>) returns (x: G.Element, e: Option<Refusal>)
      requires Valid() && DeepFits(outerMax) && level == G.DepthAlts(alts)
      modifies this
      ensures Valid() && level == outerMax
      ensures e == if DeepFits(old(level) + 1) then None else Some(TooDeep)
      ensures e.None? ==> x == G.Group(alts, None) && nest == G.Depth(x) && built == old(built) + {x}
      ensures e.Some? ==> nest == old(nest) && built == old(built)
    {
      var inner := level;
      x := G.Group([], None);
      level := outerMax;
      e := CheckNest(inner + 1);
      if e.Some? { return; }
      nest := inner + 1;
      x := G.Group(alts, None);
      built := built + {x};
    }

    method CheckNest(depth: nat) returns (e: Option<Refusal>)
      ensures e == if DeepFits(depth) then None else Some(TooDeep)
    {
      e := if MAX_NEST_DEPTH < depth then Some(TooDeep) else None;
    }

    /** A postfix operator is read: the depth it will give is checked, and only then counted. */
    method Post() returns (e: Option<Refusal>)
      requires Valid()
      modifies this
      ensures Valid() && level == old(level) && built == old(built)
      ensures e == if DeepFits(old(nest) + 1) then None else Some(TooDeep)
      ensures nest == if e.None? then old(nest) + 1 else old(nest)
    {
      var depth := nest + 1;
      e := CheckNest(depth);
      if e.None? { nest := depth; }
    }

    /** An element is complete: its operators are wrapped around its atom, and its level counts it. */
    method ItemBc(atom: G.Element, ops: string) returns (x: G.Element)
      requires Valid() && atom in built && nest == G.Depth(atom) + |ops|
      modifies this
      ensures Valid() && x == Wrap(atom, ops) && x in built && old(built) <= built
      ensures nest == old(nest) && level == G.Larger(old(level), nest)
    {
      if level < nest { level := nest; }
      x := atom;
      for k := 0 to |ops|
        invariant Valid() && x == Wrap(atom, ops[..k]) && x in built && old(built) <= built
        invariant nest == old(nest) && level == G.Larger(old(level), nest)
      {
        WrapDepth(atom, ops[..k + 1]);
        assert ops[..k + 1][..k] == ops[..k];
        x := if ops[k] == '?' then G.Opt(x) else if ops[k] == '*' then G.Star(x) else G.Plus(x);
        built := built + {x};
      }
      assert ops[..|ops|] == ops;
    }

    // ---- the order the actions fire in

    /** An element with so many groups open around it. */
    method Item(e: Elem, groups: nat) returns (x: G.Element, r: Option<Refusal>)
      requires Valid()
      modifies this
      ensures Valid() && old(built) <= built
      ensures r.None? <==> DeepFits(G.Depth(EraseElem(e))) && GroupsFit(groups, GroupNest(EraseElem(e)))
      ensures r.None? ==> x == EraseElem(e) && x in built && nest == G.Depth(x) && level == G.Larger(old(level), nest)
      decreases e, 1
    {
      WrapDepth(EraseAtom(e.atom), e.posts);
      x, r := Atom(e.atom, groups);
      if r.Some? { return; }
      for k := 0 to |e.posts|
        invariant Valid() && x in built && old(built) <= built
        invariant nest == G.Depth(x) + k && level == old(level)
      {
        r := Post();
        if r.Some? { return; }
      }
      x := ItemBc(x, e.posts);
      r := None;
    }

    method Atom(a: Atom, groups: nat) returns (x: G.Element, r: Option<Refusal>)
      requires Valid()
      modifies this
      ensures Valid() && old(built) <= built
      ensures r.None? <==> DeepFits(G.Depth(EraseAtom(a))) && GroupsFit(groups, GroupNest(EraseAtom(a)))
      ensures r.None? ==> x == EraseAtom(a) && x in built && nest == G.Depth(x) && level == old(level)
      decreases a, 0
    {
      AtomBo();
      if a.Paren? {
        x := G.Group([], None);
        var outerMax, alts;
        outerMax, r := AtomLp(RuleLevel(groups + 1));
        if r.Some? { return; }
        alts, r := Alts(a.alts, groups + 1);
        if r.Some? { return; }
        x, r := AtomGroupClose(outerMax, alts);
      } else {
        x, r := EraseAtom(a), None;
        built := built + {x};
      }
    }

    /** The alternatives of a group or a rule. */
    method Alts(alts: seq<Seq>, groups: nat) returns (xs: seq<G.Sequence>, r: Option<Refusal>)
      requires Valid()
      modifies this
      ensures Valid() && old(built) <= built
      ensures r.None? <==> DeepFits(G.DepthAlts(EraseAlts(alts))) && GroupsFit(groups, GroupsOfAlts(EraseAlts(alts)))
      ensures r.None? ==> xs == EraseAlts(alts) && level == G.Larger(old(level), G.DepthAlts(xs))
      decreases alts, 0
    {
      hide G.DepthSeq, GroupsOfSeq, EraseItems, DeepFits, GroupsFit, Valid;
      ghost var g, d := 0, 0;
      xs := [];
      StartFits(groups);
      assert alts[0..] == alts;
      for i := 0 to |alts|
        invariant Valid() && old(built) <= built
        invariant DeepFits(d) && GroupsFit(groups, g)
        invariant EraseAlts(alts) == xs + EraseAlts(alts[i..])
        invariant level == G.Larger(old(level), d)
        invariant G.DepthAlts(EraseAlts(alts)) == G.Larger(d, G.DepthAlts(EraseAlts(alts[i..])))
        invariant GroupsOfAlts(EraseAlts(alts)) == G.Larger(g, GroupsOfAlts(EraseAlts(alts[i..])))
      {
        ghost var es := EraseItems(alts[i].items);
        AltsStep(alts, i);
        var ys;
        ys, r := Sequence(alts[i].items, groups);
        FitsLarger(d, G.DepthSeq(es));
        GroupsFitLarger(groups, g, GroupsOfSeq(es));
        FitsLarger(G.DepthSeq(es), G.DepthAlts(EraseAlts(alts[i + 1..])));
        GroupsFitLarger(groups, GroupsOfSeq(es), GroupsOfAlts(EraseAlts(alts[i + 1..])));
        FitsLarger(d, G.DepthAlts(EraseAlts(alts[i..])));
        GroupsFitLarger(groups, g, GroupsOfAlts(EraseAlts(alts[i..])));
        if r.Some? { return; }
        Assoc(xs, [G.Sequence(ys)], EraseAlts(alts[i + 1..]));
        xs := xs + [G.Sequence(ys)];
        d := G.Larger(d, G.DepthSeq(es));
        g := G.Larger(g, GroupsOfSeq(es));
      }
      NoAlts(alts[|alts|..]);
      r := None;
    }

    method Sequence(items: seq<Item>, groups: nat) returns (xs: seq<G.Element>, r: Option<Refusal>)
      requires Valid()
      modifies this
      ensures Valid() && old(built) <= built
      ensures r.None? <==> DeepFits(G.DepthSeq(EraseItems(items))) && GroupsFit(groups, GroupsOfSeq(EraseItems(items)))
      ensures r.None? ==> xs == EraseItems(items) && level == G.Larger(old(level), G.DepthSeq(xs))
      decreases items, 0
    {
      hide G.Depth, GroupNest, EraseElem, DeepFits, GroupsFit, Valid;
      ghost var g, d := 0, 0;
      xs := [];
      StartFits(groups);
      assert items[0..] == items;
      for i := 0 to |items|
        invariant Valid() && old(built) <= built
        invariant DeepFits(d) && GroupsFit(groups, g)
        invariant EraseItems(items) == xs + EraseItems(items[i..])
        invariant level == G.Larger(old(level), d)
        invariant G.DepthSeq(EraseItems(items)) == G.Larger(d, G.DepthSeq(EraseItems(items[i..])))
        invariant GroupsOfSeq(EraseItems(items)) == G.Larger(g, GroupsOfSeq(EraseItems(items[i..])))
      {
        ghost var e := EraseElem(items[i].elem);
        ItemsStep(items, i);
        var x;
        x, r := Item(items[i].elem, groups);
        FitsLarger(d, G.Depth(e));
        GroupsFitLarger(groups, g, GroupNest(e));
        FitsLarger(G.Depth(e), G.DepthSeq(EraseItems(items[i + 1..])));
        GroupsFitLarger(groups, GroupNest(e), GroupsOfSeq(EraseItems(items[i + 1..])));
        FitsLarger(d, G.DepthSeq(EraseItems(items[i..])));
        GroupsFitLarger(groups, g, GroupsOfSeq(EraseItems(items[i..])));
        if r.Some? { return; }
        Assoc(xs, [x], EraseItems(items[i + 1..]));
        xs := xs + [x];
        d := G.Larger(d, G.Depth(e));
        g := G.Larger(g, GroupNest(e));
      }
      NoItems(items[|items|..]);
      r := None;
    }
  }

  // ---- steps of the walks

  lemma {:induction false} WrapDepth(e: G.Element, posts: string)
    ensures G.Depth(Wrap(e, posts)) == G.Depth(e) + |posts| && GroupNest(Wrap(e, posts)) == GroupNest(e)
  {
    if posts != "" { WrapDepth(e, posts[..|posts| - 1]); }
  }

  lemma StartFits(groups: nat)
    ensures DeepFits(0) && GroupsFit(groups, 0)
  {
  }

  lemma FitsLarger(a: nat, b: nat)
    ensures DeepFits(G.Larger(a, b)) <==> DeepFits(a) && DeepFits(b)
  {
  }

  lemma GroupsFitLarger(groups: nat, a: nat, b: nat)
    ensures GroupsFit(groups, G.Larger(a, b)) <==> GroupsFit(groups, a) && GroupsFit(groups, b)
  {
  }

  lemma AltsStep(alts: seq<Seq>, i: nat)
    requires i < |alts|
    ensures var es := EraseItems(alts[i].items);
            && EraseAlts(alts[i..]) == [G.Sequence(es)] + EraseAlts(alts[i + 1..])
            && G.DepthAlts(EraseAlts(alts[i..])) == G.Larger(G.DepthSeq(es), G.DepthAlts(EraseAlts(alts[i + 1..])))
            && GroupsOfAlts(EraseAlts(alts[i..])) == G.Larger(GroupsOfSeq(es), GroupsOfAlts(EraseAlts(alts[i + 1..])))
  {
    assert alts[i..][1..] == alts[i + 1..];
    assert EraseAlts(alts[i..])[1..] == EraseAlts(alts[i + 1..]);
  }

  lemma NoAlts(alts: seq<Seq>)
    requires alts == []
    ensures EraseAlts(alts) == [] && G.DepthAlts(EraseAlts(alts)) == 0 && GroupsOfAlts(EraseAlts(alts)) == 0
  {
  }

  lemma ItemsStep(items: seq<Item>, i: nat)
    requires i < |items|
    ensures var x := EraseElem(items[i].elem);
            && EraseItems(items[i..]) == [x] + EraseItems(items[i + 1..])
            && G.DepthSeq(EraseItems(items[i..])) == G.Larger(G.Depth(x), G.DepthSeq(EraseItems(items[i + 1..])))
            && GroupsOfSeq(EraseItems(items[i..])) == G.Larger(GroupNest(x), GroupsOfSeq(EraseItems(items[i + 1..])))
  {
    assert items[i..][1..] == items[i + 1..];
    assert EraseItems(items[i..])[1..] == EraseItems(items[i + 1..]);
  }

  lemma NoItems(items: seq<Item>)
    requires items == []
    ensures EraseItems(items) == [] && G.DepthSeq(EraseItems(items)) == 0 && GroupsOfSeq(EraseItems(items)) == 0
  {
  }

  // ---- the two caps

  /** Every group holds an element, as every group the reader takes does. */
  predicate NoEmptyGroup(e: G.Element) {
    match e
    case Group(alts, _) => G.DepthAlts(alts) > 0 && NoEmptyAlts(alts)
    case Opt(i) => NoEmptyGroup(i)
    case Star(i) => NoEmptyGroup(i)
    case Plus(i) => NoEmptyGroup(i)
    case _ => true
  }

  predicate NoEmptySeq(es: seq<G.Element>) {
    es != [] ==> NoEmptyGroup(es[0]) && NoEmptySeq(es[1..])
  }

  predicate NoEmptyAlts(alts: seq<G.Sequence>) {
    alts != [] ==> NoEmptySeq(alts[0].els) && NoEmptyAlts(alts[1..])
  }

  lemma {:induction false} GroupsBelowDepth(e: G.Element)
    requires NoEmptyGroup(e)
    ensures GroupNest(e) < G.Depth(e)
    decreases e
  {
    match e
    case Group(alts, _) => AltsBelowDepth(alts);
    case Opt(i) => GroupsBelowDepth(i);
    case Star(i) => GroupsBelowDepth(i);
    case Plus(i) => GroupsBelowDepth(i);
    case _ =>
  }

  lemma {:induction false} SeqBelowDepth(es: seq<G.Element>)
    requires NoEmptySeq(es)
    ensures GroupsOfSeq(es) <= G.DepthSeq(es) && (es != [] ==> GroupsOfSeq(es) < G.DepthSeq(es))
    decreases es
  {
    if es != [] {
      GroupsBelowDepth(es[0]);
      SeqBelowDepth(es[1..]);
    }
  }

  lemma {:induction false} AltsBelowDepth(alts: seq<G.Sequence>)
    requires NoEmptyAlts(alts)
    ensures GroupsOfAlts(alts) <= G.DepthAlts(alts)
    ensures G.DepthAlts(alts) > 0 ==> GroupsOfAlts(alts) < G.DepthAlts(alts)
    decreases alts
  {
    if alts != [] {
      SeqBelowDepth(alts[0].els);
      AltsBelowDepth(alts[1..]);
    }
  }

  lemma {:induction false} ReadIsFilled(a: Atom)
    requires SpacedAtom(a)
    ensures NoEmptyGroup(EraseAtom(a))
    decreases a, 0
  {
    if a.Paren? { AltsAreFilled(a.alts); }
  }

  lemma {:induction false} WrapIsFilled(e: G.Element, posts: string)
    requires NoEmptyGroup(e)
    ensures NoEmptyGroup(Wrap(e, posts))
  {
    if posts != "" { WrapIsFilled(e, posts[..|posts| - 1]); }
  }

  lemma {:induction false} ItemsAreFilled(items: seq<Item>, prev: Option<Elem>)
    requires SpacedItems(items, prev)
    ensures NoEmptySeq(EraseItems(items))
    decreases items
  {
    hide Clear;
    if items != [] {
      ReadIsFilled(items[0].elem.atom);
      WrapIsFilled(EraseAtom(items[0].elem.atom), items[0].elem.posts);
      ItemsAreFilled(items[1..], Some(items[0].elem));
    }
  }

  lemma {:induction false} AltsAreFilled(alts: seq<Seq>)
    requires SpacedMore(alts)
    ensures NoEmptyAlts(EraseAlts(alts)) && (alts != [] ==> G.DepthAlts(EraseAlts(alts)) > 0)
    decreases alts, 0
  {
    if alts != [] {
      ItemsAreFilled(alts[0].items, None);
      AltsAreFilled(alts[1..]);
    }
  }

  /** The cap on rule levels leaves room for 129 groups, one inside another. */
  lemma GroupsFitIff(groups: nat, nest: nat)
    ensures GroupsFit(groups, nest) <==> nest == 0 || groups + nest <= 129
  {
  }

  /** The cap on rule levels refuses nothing the cap on depth would take, of what can be read. */
  lemma GroupCapIsSlack(p: Prod)
    requires SpacedProd(p)
    ensures DeepFits(G.DepthAlts(EraseAlts(p.alts))) ==> GroupsFit(0, GroupsOfAlts(EraseAlts(p.alts)))
  {
    AltsAreFilled(p.alts);
    AltsBelowDepth(EraseAlts(p.alts));
  }

  /**
   A file of rules is refused exactly when an element of some rule would nest past the limit. What is built of
   it, refused or not, never nests past it; what is not refused is built as it stands.
   */
  method CheckRules(ps: seq<Prod>)
    returns (rules: seq<seq<G.Sequence>>, r: Option<Refusal>, ghost built: set<G.Element>)
    requires forall p | p in ps :: SpacedProd(p)
    ensures r.None? <==> forall p | p in ps :: G.DepthAlts(EraseAlts(p.alts)) <= 130
    ensures r.None? ==> |rules| == |ps| && forall i | 0 <= i < |ps| :: rules[i] == EraseAlts(ps[i].alts)
    ensures forall x | x in built :: G.Depth(x) <= 130
  {
    hide SpacedProd;
    var c := new Context();
    rules, built := [], {};
    for i := 0 to |ps|
      invariant c.Valid() && |rules| == i && forall j | 0 <= j < i :: rules[j] == EraseAlts(ps[j].alts)
      invariant forall p | p in ps[..i] :: G.DepthAlts(EraseAlts(p.alts)) <= 130
    {
      var alts;
      alts, r := c.Alts(ps[i].alts, 0);
      GroupCapIsSlack(ps[i]);
      assert ps[..i + 1] == ps[..i] + [ps[i]];
      built := c.built;
      if r.Some? { return; }
      rules := rules + [alts];
    }
    assert ps[..|ps|] == ps;
    r, built := None, c.built;
  }
}
