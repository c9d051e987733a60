/**
 How the members of a character class are read: from the left, two code points with a hyphen between them are a
 range, and every other member, a hyphen among them, stands for itself.
 */
module ClassGroups {
  import opened Text
  import opened Grammar
  import opened CharClass

  /** A member by itself, or a range. */
  datatype Group = Single(m: Member) | Between(lo: nat, hi: nat)

  function Flat(g: Group): seq<Member> {
    match g
    case Single(m) => [m]
    case Between(lo, hi) => [Point(lo), Hyphen, Point(hi)]
  }

  function FlatAll(gs: seq<Group>): seq<Member> {
    if gs == [] then [] else Flat(gs[0]) + FlatAll(gs[1..])
  }

  /** Whether a code point, a hyphen and a code point are what comes first. */
  predicate Triple(ms: seq<Member>) {
    |ms| >= 3 && ms[0] != Hyphen && ms[1] == Hyphen && ms[2] != Hyphen
  }

  /** Whether every triple is taken that the groups from the left come to. */
  predicate FromLeft(gs: seq<Group>) {
    forall k | 0 <= k < |gs| && Triple(FlatAll(gs[k..])) :: gs[k].Between?
  }

  /** The code points a group stands for: a hyphen by itself is the hyphen. */
  function OwnPart(g: Group): Part {
    match g
    case Single(Hyphen) => Part('-' as int, '-' as int)
    case Single(Point(cp)) => Part(cp, cp)
    case Between(lo, hi) => Part(lo, hi)
  }

  predicate InOrder(gs: seq<Group>) {
    forall g | g in gs && g.Between? :: g.lo <= g.hi
  }

  /** Members are grouped in one way. */
  lemma {:induction false} Grouped(ms: seq<Member>) returns (gs: seq<Group>)
    ensures FlatAll(gs) == ms && FromLeft(gs)
    decreases |ms|
  {
    if ms == [] {
      gs := [];
    } else {
      hide FlatAll, FromLeft;
      var g := if Triple(ms) then Between(ms[0].cp, ms[2].cp) else Single(ms[0]);
      var n := |Flat(g)|;
      var more := Grouped(ms[n..]);
      gs := [g] + more;
      FlatJoined(g, more);
      assert ms[..n] == Flat(g) && ms == ms[..n] + ms[n..];
      GroupsBefore(g, more);
    }
  }

  lemma FlatJoined(g: Group, more: seq<Group>)
    ensures FlatAll([g] + more) == Flat(g) + FlatAll(more)
  {
    assert ([g] + more)[1..] == more;
  }

  lemma GroupsBefore(g: Group, more: seq<Group>)
    requires FromLeft(more) && (Triple(FlatAll([g] + more)) ==> g.Between?)
    ensures FromLeft([g] + more)
  {
    var gs := [g] + more;
    forall k | 0 <= k < |gs| && Triple(FlatAll(gs[k..])) ensures gs[k].Between? {
      if k == 0 { assert gs[0..] == gs; } else { assert gs[k..] == more[k - 1..]; }
    }
  }

  lemma GroupsBehind(gs: seq<Group>)
    requires gs != [] && FromLeft(gs)
    ensures FromLeft(gs[1..]) && (Triple(FlatAll(gs)) ==> gs[0].Between?)
  {
    var more := gs[1..];
    assert gs[0..] == gs;
    forall k | 0 <= k < |more| && Triple(FlatAll(more[k..])) ensures more[k].Between? {
      assert more[k..] == gs[k + 1..];
    }
  }

  lemma {:induction false} GroupedOnce(gs: seq<Group>, hs: seq<Group>)
    requires FlatAll(gs) == FlatAll(hs) && FromLeft(gs) && FromLeft(hs)
    ensures gs == hs
  {
    if gs != [] { FlatFirst(gs); GroupsBehind(gs); }
    if hs != [] { FlatFirst(hs); GroupsBehind(hs); }
    if gs != [] && hs != [] {
      var ms := FlatAll(gs);
      assert gs[0] == hs[0];
      GroupedOnce(gs[1..], hs[1..]);
      assert gs == [gs[0]] + gs[1..] && hs == [hs[0]] + hs[1..];
    }
  }

  /** What comes first tells what the first group is. */
  lemma FlatFirst(gs: seq<Group>)
    requires gs != [] && FromLeft(gs)
    ensures var ms := FlatAll(gs);
            ms != [] && gs[0] == (if Triple(ms) then Between(ms[0].cp, ms[2].cp) else Single(ms[0]))
    ensures FlatAll(gs[1..]) == FlatAll(gs)[|Flat(gs[0])|..]
  {
    GroupsBehind(gs);
    var t, u := Flat(gs[0]), FlatAll(gs[1..]);
    assert t + u == FlatAll(gs) && (t + u)[|t|..] == u;
    assert t[0] == (t + u)[0];
    if gs[0].Between? { assert (t + u)[1] == t[1] && (t + u)[2] == t[2]; }
  }

  // ---- the fold takes these groups

  lemma FoldOne(g: Group, ms: seq<Member>)
    requires Triple(Flat(g) + ms) ==> g.Between?
    ensures Fold(Flat(g) + ms)
         == if g.Between? && g.hi < g.lo then Refused(ReversedRange) else Then(OwnPart(g), Fold(ms))
  {
    hide Fold;
    var t := Flat(g) + ms;
    assert t[0] == Flat(g)[0] && t[|Flat(g)|..] == ms;
    if g.Between? { assert t[1] == Hyphen && t[2] == Point(g.hi); }
    FoldUnfolds(t);
  }

  lemma FoldUnfolds(ms: seq<Member>)
    requires ms != []
    ensures Fold(ms) ==
            if ms[0].Hyphen? then Then(Part(0x2D, 0x2D), Fold(ms[1..]))
            else if RangeFirst(ms) then
              if ms[2].cp < ms[0].cp then Refused(ReversedRange)
              else Then(Part(ms[0].cp, ms[2].cp), Fold(ms[3..]))
            else Then(Part(ms[0].cp, ms[0].cp), Fold(ms[1..]))
  {
  }

  /** The fold fails exactly where a range is reversed; otherwise each group gives its own code points, in order. */
  lemma {:induction false} FoldIsGroups(gs: seq<Group>)
    requires FromLeft(gs)
    ensures Fold(FlatAll(gs)).Fine? <==> InOrder(gs)
    ensures Fold(FlatAll(gs)).Refused? ==> Fold(FlatAll(gs)).fault == ReversedRange
    ensures InOrder(gs) ==> var ps := Fold(FlatAll(gs)).value;
                            |ps| == |gs| && forall k | 0 <= k < |gs| :: ps[k] == OwnPart(gs[k])
  {
    hide Fold;
    if gs == [] {
      NothingFolded();
    } else {
      GroupsBehind(gs);
      FoldOne(gs[0], FlatAll(gs[1..]));
      FoldIsGroups(gs[1..]);
      assert InOrder(gs) <==> (gs[0].Between? ==> gs[0].lo <= gs[0].hi) && InOrder(gs[1..]);
    }
  }

  lemma NothingFolded()
    ensures Fold([]) == Fine([])
  {
  }

  // ---- a body of characters

  /** A body in which no code point is written as one. */
  predicate Plain(body: string) {
    forall i | 0 <= i < |body| :: !("#x" <= body[i..])
  }

  function MarksOf(body: string): (ms: seq<Member>)
    ensures |ms| == |body|
    ensures forall i | 0 <= i < |body| :: ms[i] == if body[i] == '-' then Hyphen else Point(body[i] as int)
  {
    if body == "" then []
    else [if body[0] == '-' then Hyphen else Point(body[0] as int)] + MarksOf(body[1..])
  }

  lemma {:induction false} PlainMembers(body: string)
    requires Plain(body)
    ensures Members(body) == Fine(MarksOf(body))
  {
    if body != "" {
      assert body[0..] == body;
      forall i | 0 <= i < |body[1..]| ensures !("#x" <= body[1..][i..]) { assert body[1..][i..] == body[i + 1..]; }
      PlainMembers(body[1..]);
      NotCoded(body);
      MembersOne(body);
    }
  }

  lemma NotCoded(body: string)
    ensures Begins(body, '#', 'x') <==> "#x" <= body
  {
  }

  predicate Covers(g: Group, cp: nat) {
    match g
    case Single(Hyphen) => cp == '-' as int
    case Single(Point(c)) => cp == c
    case Between(lo, hi) => lo <= cp <= hi
  }

  ghost predicate CoveredBy(gs: seq<Group>, cp: nat) {
    exists k :: 0 <= k < |gs| && Covers(gs[k], cp)
  }

  lemma OwnPartsCover(gs: seq<Group>, ps: seq<Part>, cp: nat)
    requires |ps| == |gs| && forall k | 0 <= k < |gs| :: ps[k] == OwnPart(gs[k])
    ensures InParts(ps, cp) <==> CoveredBy(gs, cp)
  {
    if InParts(ps, cp) {
      var p :| p in ps && InPart(p, cp);
      var k :| 0 <= k < |ps| && ps[k] == p;
      assert Covers(gs[k], cp);
    }
    if CoveredBy(gs, cp) {
      var k :| 0 <= k < |gs| && Covers(gs[k], cp);
      assert ps[k] in ps && InPart(ps[k], cp);
    }
  }

  /** What a body of characters stands for: its groups' code points, unless one of its ranges is reversed. */
  lemma PlainBodyMatches(body: string, gs: seq<Group>, cp: nat)
    requires Plain(body) && FlatAll(gs) == MarksOf(body) && FromLeft(gs)
    ensures Parts(body).Fine? <==> InOrder(gs)
    ensures InOrder(gs) ==> (InParts(Parts(body).value, cp) <==> CoveredBy(gs, cp))
  {
    hide Plain, FlatAll, FromLeft, InOrder, MarksOf, Members, Fold, InParts, CoveredBy, OwnPart;
    PlainMembers(body);
    FoldIsGroups(gs);
    if InOrder(gs) { OwnPartsCover(gs, Fold(FlatAll(gs)).value, cp); }
  }

  /** A hyphen in no range, or a range that goes over the hyphen. */
  predicate TakesHyphen(g: Group) {
    g == Single(Hyphen) || (g.Between? && g.lo < '-' as int < g.hi)
  }

  /** A hyphen is matched exactly where one stands in no range, or a range goes over it. */
  lemma HyphenMatches(body: string, gs: seq<Group>)
    requires Plain(body) && FlatAll(gs) == MarksOf(body) && FromLeft(gs) && InOrder(gs)
    ensures Parts(body).Fine?
    ensures InParts(Parts(body).value, '-' as int) <==> exists k :: 0 <= k < |gs| && TakesHyphen(gs[k])
  {
    hide Plain, FlatAll, FromLeft, InOrder, MarksOf, Parts, InParts, Covers, TakesHyphen;
    PlainBodyMatches(body, gs, '-' as int);
    forall k | 0 <= k < |gs| ensures Covers(gs[k], '-' as int) <==> TakesHyphen(gs[k]) {
      NoHyphenPoint(body, gs, k);
      CoversHyphen(gs[k]);
    }
  }

  lemma CoversHyphen(g: Group)
    requires g != Single(Point('-' as int)) && (g.Between? ==> g.lo != '-' as int && g.hi != '-' as int)
    ensures Covers(g, '-' as int) <==> TakesHyphen(g)
  {
  }

  /** A hyphen in a body is no code point, alone or at a range's end. */
  lemma NoHyphenPoint(body: string, gs: seq<Group>, k: nat)
    requires FlatAll(gs) == MarksOf(body) && k < |gs|
    ensures gs[k] != Single(Point('-' as int))
    ensures gs[k].Between? ==> gs[k].lo != '-' as int && gs[k].hi != '-' as int
  {
    var ms := MarksOf(body);
    var at := FlatOf(gs, k);
    assert ms[at] == Flat(gs[k])[0];
    if gs[k].Between? { assert ms[at + 2] == Flat(gs[k])[2]; }
  }

  lemma {:induction false} FlatOf(gs: seq<Group>, k: nat) returns (at: nat)
    requires k < |gs|
    ensures at + |Flat(gs[k])| <= |FlatAll(gs)|
    ensures forall i | 0 <= i < |Flat(gs[k])| :: FlatAll(gs)[at + i] == Flat(gs[k])[i]
  {
    if k == 0 {
      at := 0;
    } else {
      var more := FlatOf(gs[1..], k - 1);
      at := |Flat(gs[0])| + more;
    }
  }
}
