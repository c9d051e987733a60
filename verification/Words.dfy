/** The words a grammar's elements stand for, given those of its leaves. */
module Words {
  import opened Wrappers
  import opened Text
  import opened Grammar

  type Word = seq<nat>

  /** The words of terminals and of names. */
  type Leaves = iset<(Element, Word)>

  ghost predicate Yields(env: Leaves, e: Element, w: Word)
    decreases e, 0, 0
  {
    match e
    case Group(alts, _) => YieldsAlts(env, alts, w)
    case Opt(i) => w == [] || Yields(env, i, w)
    case Star(i) => exists n: nat :: Power(env, i, n, w)
    case Plus(i) => exists n: nat :: n >= 1 && Power(env, i, n, w)
    case _ => (e, w) in env
  }

  ghost predicate YieldsAlts(env: Leaves, alts: seq<Sequence>, w: Word)
    decreases alts, 0, 0
  {
    alts != [] && (YieldsSeq(env, alts[0].els, w) || YieldsAlts(env, alts[1..], w))
  }

  ghost predicate YieldsSeq(env: Leaves, es: seq<Element>, w: Word)
    decreases es, 0, 0
  {
    if es == [] then w == []
    else exists k: nat :: k <= |w| && Yields(env, es[0], w[..k]) && YieldsSeq(env, es[1..], w[k..])
  }

  /** So many words of an element, one after another. */
  ghost predicate Power(env: Leaves, e: Element, n: nat, w: Word)
    decreases e, 1, n
  {
    if n == 0 then w == []
    else exists k: nat :: k <= |w| && Yields(env, e, w[..k]) && Power(env, e, n - 1, w[k..])
  }

  lemma SeqFirst(env: Leaves, e: Element, es: seq<Element>, w: Word) returns (k: nat)
    requires YieldsSeq(env, [e] + es, w)
    ensures k <= |w| && Yields(env, e, w[..k]) && YieldsSeq(env, es, w[k..])
  {
    assert ([e] + es)[1..] == es;
    k :| k <= |w| && Yields(env, e, w[..k]) && YieldsSeq(env, es, w[k..]);
  }

  lemma SeqCons(env: Leaves, e: Element, es: seq<Element>, w: Word, k: nat)
    requires k <= |w| && Yields(env, e, w[..k]) && YieldsSeq(env, es, w[k..])
    ensures YieldsSeq(env, [e] + es, w)
  {
    assert ([e] + es)[1..] == es;
  }

  lemma SeqNone(env: Leaves, w: Word)
    ensures YieldsSeq(env, [], w) <==> w == []
  {
  }

  lemma {:induction false} SeqJoins(env: Leaves, a: seq<Element>, b: seq<Element>, w: Word, m: nat)
    requires m <= |w| && YieldsSeq(env, a, w[..m]) && YieldsSeq(env, b, w[m..])
    ensures YieldsSeq(env, a + b, w)
  {
    hide YieldsSeq, Yields;
    if a == [] {
      SeqNone(env, w[..m]);
      Ends(b);
      assert w[0..] == w;
    } else {
      assert [a[0]] + a[1..] == a;
      Assoc([a[0]], a[1..], b);
      var k := SeqFirst(env, a[0], a[1..], w[..m]);
      Cuts(w, k, m - k);
      SeqJoins(env, a[1..], b, w[k..], m - k);
      SeqCons(env, a[0], a[1..] + b, w, k);
    }
  }

  lemma {:induction false} SeqSplits(env: Leaves, a: seq<Element>, b: seq<Element>, w: Word) returns (m: nat)
    requires YieldsSeq(env, a + b, w)
    ensures m <= |w| && YieldsSeq(env, a, w[..m]) && YieldsSeq(env, b, w[m..])
  {
    hide YieldsSeq, Yields;
    if a == [] {
      m := 0;
      SeqNone(env, []);
      Ends(b);
      assert w[0..] == w && w[..0] == [];
    } else {
      assert [a[0]] + a[1..] == a;
      Assoc([a[0]], a[1..], b);
      var k := SeqFirst(env, a[0], a[1..] + b, w);
      var l := SeqSplits(env, a[1..], b, w[k..]);
      m := k + l;
      Cuts(w, k, l);
      SeqCons(env, a[0], a[1..], w[..m], k);
    }
  }

  lemma Cuts(w: Word, k: nat, l: nat)
    requires k + l <= |w|
    ensures w[k..][..l] == w[..k + l][k..] && w[k..][l..] == w[k + l..] && w[..k + l][..k] == w[..k]
  {
  }

  lemma SeqOne(env: Leaves, e: Element, w: Word)
    ensures YieldsSeq(env, [e], w) <==> Yields(env, e, w)
  {
    assert [e][1..] == [];
    if Yields(env, e, w) { assert w[..|w|] == w && w[|w|..] == []; }
    if YieldsSeq(env, [e], w) {
      var k: nat :| k <= |w| && Yields(env, e, w[..k]) && YieldsSeq(env, [], w[k..]);
      assert w[..k] == w;
    }
  }

  lemma PowerOne(env: Leaves, e: Element, w: Word)
    ensures Power(env, e, 1, w) <==> Yields(env, e, w)
  {
    if Yields(env, e, w) { assert w[..|w|] == w && w[|w|..] == []; }
    if Power(env, e, 1, w) {
      var k: nat :| k <= |w| && Yields(env, e, w[..k]) && Power(env, e, 0, w[k..]);
      assert w[..k] == w;
    }
  }

  /** Two powers, one after the other, are their sum's. */
  lemma {:induction false} PowerJoins(env: Leaves, e: Element, a: nat, b: nat, w: Word, m: nat)
    requires m <= |w| && Power(env, e, a, w[..m]) && Power(env, e, b, w[m..])
    ensures Power(env, e, a + b, w)
    decreases a
  {
    if a == 0 {
      assert w[0..] == w;
    } else {
      var k: nat :| k <= |w[..m]| && Yields(env, e, w[..m][..k]) && Power(env, e, a - 1, w[..m][k..]);
      Cuts(w, k, m - k);
      PowerJoins(env, e, a - 1, b, w[k..], m - k);
    }
  }

  lemma {:induction false} PowerSplits(env: Leaves, e: Element, a: nat, b: nat, w: Word) returns (m: nat)
    requires Power(env, e, a + b, w)
    ensures m <= |w| && Power(env, e, a, w[..m]) && Power(env, e, b, w[m..])
    decreases a
  {
    if a == 0 {
      assert w[0..] == w && w[..0] == [];
      m := 0;
    } else {
      var k: nat :| k <= |w| && Yields(env, e, w[..k]) && Power(env, e, a - 1 + b, w[k..]);
      var l := PowerSplits(env, e, a - 1, b, w[k..]);
      Cuts(w, k, l);
      m := k + l;
    }
  }
}
