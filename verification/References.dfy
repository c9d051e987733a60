/**
 References written back. The compiler substitutes a reference that leads an alternative by the rule it
 names, each of its alternatives followed by what followed the reference; the render finds such runs and
 writes the reference again. Alternatives are known by the keys of their elements.
 */
module References {
  import opened Wrappers
  import opened Text
  import opened Strings

  /** An alternative, by its elements' keys. */
  datatype Keys = Keys(ks: seq<string>)

  /** A rule that may be referenced, by its alternatives' keys. */
  datatype Cand = Cand(name: string, keys: seq<Keys>)

  /** An alternative as it is written: as it was, or as a reference and what follows it. */
  datatype Entry = Kept(alt: Keys) | Ref(cand: Cand, tail: seq<string>)

  const MARK := "\U{000001}"

  /** Keys that hold something, and not the mark they are joined with. */
  predicate Clean(ks: seq<string>) {
    forall i | 0 <= i < |ks| :: ks[i] != "" && MARK[0] !in ks[i]
  }

  /** What follows a candidate alternative's keys, where an alternative begins with them. */
  function PrefixTail(ks: seq<string>, cs: seq<string>): Option<string> {
    if |ks| < |cs| then None
    else if Join(MARK, ks[..|cs|]) == Join(MARK, cs) then Some(Join(MARK, ks[|cs|..]))
    else None
  }

  /** Whether a run from position i on is a candidate's alternatives with one tail for all. */
  predicate CandMatches(c: Cand, ka: seq<Keys>, i: nat)
    requires c.keys != []
  {
    && i + |c.keys| <= |ka|
    && PrefixTail(ka[i].ks, c.keys[0].ks).Some?
    && forall j | 0 <= j < |c.keys| ::
         PrefixTail(ka[i + j].ks, c.keys[j].ks) == PrefixTail(ka[i].ks, c.keys[0].ks)
  }

  /** All matches at a position; no rule is a candidate for itself. */
  function Hits(cands: seq<Cand>, ka: seq<Keys>, i: nat, own: string): (hits: seq<Cand>)
    requires forall c | c in cands :: c.keys != []
    ensures forall c :: c in hits <==> c in cands && c.name != own && CandMatches(c, ka, i)
  {
    if cands == [] then []
    else
      (if cands[0].name != own && CandMatches(cands[0], ka, i) then [cands[0]] else []) + Hits(cands[1..], ka, i, own)
  }

  /** The longest match; the earliest of several. */
  function Most(hits: seq<Cand>): (c: Option<Cand>)
    ensures c.None? <==> hits == []
    ensures c.Some? ==> c.value in hits
  {
    if hits == [] then None
    else
      var rest := Most(hits[1..]);
      if rest.None? || |hits[0].keys| >= |rest.value.keys| then Some(hits[0]) else rest
  }

  lemma {:induction false} MostIsFirstLargest(hits: seq<Cand>) returns (k: nat)
    requires hits != []
    ensures k < |hits| && Most(hits) == Some(hits[k])
    ensures forall l | 0 <= l < |hits| :: |hits[l].keys| <= |hits[k].keys|
    ensures forall l | 0 <= l < k :: |hits[l].keys| < |hits[k].keys|
  {
    k := 0;
    if |hits| > 1 {
      var m := MostIsFirstLargest(hits[1..]);
      assert forall l | 1 <= l < |hits| :: hits[l] == hits[1..][l - 1];
      if |hits[0].keys| < |hits[m + 1].keys| { k := m + 1; }
    }
  }

  function CandAt(cands: seq<Cand>, ka: seq<Keys>, i: nat, own: string): Option<Cand>
    requires forall c | c in cands :: c.keys != []
  {
    Most(Hits(cands, ka, i, own))
  }

  /** Whether the run that stands at j goes over position i. */
  predicate Covers(cands: seq<Cand>, ka: seq<Keys>, own: string, j: nat, i: nat)
    requires forall c | c in cands :: c.keys != []
  {
    var c := CandAt(cands, ka, j, own);
    c.Some? && j < i < j + |c.value.keys|
  }

  /** Whether a reference is written at a position: a run stands there, and no other goes over it. */
  predicate Accepted(cands: seq<Cand>, ka: seq<Keys>, own: string, i: nat)
    requires forall c | c in cands :: c.keys != []
  {
    CandAt(cands, ka, i, own).Some? && forall j | 0 <= j < |ka| :: !Covers(cands, ka, own, j, i)
  }

  predicate Covered(cands: seq<Cand>, ka: seq<Keys>, own: string, i: nat)
    requires forall c | c in cands :: c.keys != []
  {
    exists j :: 0 <= j < |ka| && Accepted(cands, ka, own, j) && Covers(cands, ka, own, j, i)
  }

  function EntryAt(cands: seq<Cand>, ka: seq<Keys>, own: string, i: nat): seq<Entry>
    requires forall c | c in cands :: c.keys != []
    requires i < |ka|
  {
    if Accepted(cands, ka, own, i) then
      var c := CandAt(cands, ka, i, own).value;
      Matched(cands, ka, own, i);
      [Ref(c, ka[i].ks[|c.keys[0].ks|..])]
    else if Covered(cands, ka, own, i) then []
    else [Kept(ka[i])]
  }

  lemma Matched(cands: seq<Cand>, ka: seq<Keys>, own: string, i: nat)
    requires forall c | c in cands :: c.keys != []
    requires CandAt(cands, ka, i, own).Some?
    ensures var c := CandAt(cands, ka, i, own).value;
            c in cands && c.keys != [] && CandMatches(c, ka, i) && |c.keys[0].ks| <= |ka[i].ks|
  {
  }

  function EntriesFrom(cands: seq<Cand>, ka: seq<Keys>, own: string, i: nat): seq<Entry>
    requires forall c | c in cands :: c.keys != []
    requires i <= |ka|
    decreases |ka| - i
  {
    if i == |ka| then [] else EntryAt(cands, ka, own, i) + EntriesFrom(cands, ka, own, i + 1)
  }

  /** Whether what is written is one reference and nothing else. */
  predicate Alias(out: seq<Entry>) {
    |out| == 1 && match out[0]
                  case Ref(_, tail) => tail == []
                  case Kept(alt) => |alt.ks| == 1 && |alt.ks[0]| > 0 && alt.ks[0][0] == '@'
  }

  function AllKept(ka: seq<Keys>): seq<Entry> {
    if ka == [] then [] else [Kept(ka[0])] + AllKept(ka[1..])
  }

  /** What the rule is written as. */
  function Unsub(cands: seq<Cand>, own: string, ka: seq<Keys>): seq<Entry>
    requires forall c | c in cands :: c.keys != []
  {
    if cands == [] then AllKept(ka)
    else
      var out := EntriesFrom(cands, ka, own, 0);
      if Alias(out) then AllKept(ka) else out
  }

  // ---- what the compiler makes of what is written

  /** A candidate's alternatives, each followed by a tail. */
  function Followed(keys: seq<Keys>, tail: seq<string>): (r: seq<Keys>)
    ensures |r| == |keys|
    ensures forall j | 0 <= j < |keys| :: r[j] == Keys(keys[j].ks + tail)
  {
    if keys == [] then [] else [Keys(keys[0].ks + tail)] + Followed(keys[1..], tail)
  }

  function Substituted(out: seq<Entry>): seq<Keys> {
    if out == [] then []
    else
      (match out[0]
       case Kept(alt) => [alt]
       case Ref(c, tail) => Followed(c.keys, tail)) + Substituted(out[1..])
  }

  // ---- keys joined and told apart

  lemma JoinedApart(a: seq<string>, b: seq<string>)
    requires Clean(a) && Clean(b) && Join(MARK, a) == Join(MARK, b)
    ensures a == b
  {
    if a == [] || b == [] {
      if a != [] { NotEmpty(a); }
      if b != [] { NotEmpty(b); }
    } else {
      forall i | 0 <= i < |a| ensures Cuts(MARK, a[i]) { CutsIfAbsent(MARK, a[i]); }
      forall i | 0 <= i < |b| ensures Cuts(MARK, b[i]) { CutsIfAbsent(MARK, b[i]); }
      SplitOfJoin(MARK, a);
      SplitOfJoin(MARK, b);
    }
  }

  lemma NotEmpty(a: seq<string>)
    requires Clean(a) && a != []
    ensures Join(MARK, a) != ""
  {
  }

  predicate AllClean(ka: seq<Keys>) {
    forall i | 0 <= i < |ka| :: Clean(ka[i].ks)
  }

  predicate CleanCands(cands: seq<Cand>) {
    forall c | c in cands :: c.keys != [] && AllClean(c.keys)
  }

  /** A tail found is really there. */
  lemma PrefixIsThere(ks: seq<string>, cs: seq<string>)
    requires Clean(ks) && Clean(cs)
    ensures PrefixTail(ks, cs).Some? <==> |cs| <= |ks| && ks[..|cs|] == cs
  {
    if |cs| <= |ks| && Join(MARK, ks[..|cs|]) == Join(MARK, cs) { JoinedApart(ks[..|cs|], cs); }
  }

  /** A candidate that matches is the run it stands over, each alternative with the same tail. */
  lemma RunIsFollowed(c: Cand, ka: seq<Keys>, i: nat)
    requires c.keys != [] && AllClean(c.keys) && AllClean(ka) && CandMatches(c, ka, i)
    ensures ka[i..i + |c.keys|] == Followed(c.keys, ka[i].ks[|c.keys[0].ks|..])
  {
    var tail := ka[i].ks[|c.keys[0].ks|..];
    forall j | 0 <= j < |c.keys| ensures ka[i + j] == Keys(c.keys[j].ks + tail) {
      var ks, cs := ka[i + j].ks, c.keys[j].ks;
      PrefixIsThere(ks, cs);
      JoinedApart(ks[|cs|..], tail);
      assert ks == ks[..|cs|] + ks[|cs|..];
    }
  }

  // ---- the runs

  /** No accepted run goes over another's positions, nor over a position another is accepted at. */
  lemma AcceptedApart(cands: seq<Cand>, ka: seq<Keys>, own: string, j: nat, i: nat)
    requires forall c | c in cands :: c.keys != []
    requires j < i < |ka| && Accepted(cands, ka, own, j) && Accepted(cands, ka, own, i)
    ensures j + |CandAt(cands, ka, j, own).value.keys| <= i
  {
    assert !Covers(cands, ka, own, j, i);
  }

  lemma InnerIsDropped(cands: seq<Cand>, ka: seq<Keys>, own: string, i: nat, m: nat)
    requires forall c | c in cands :: c.keys != []
    requires i < |ka| && Accepted(cands, ka, own, i) && i < m < i + |CandAt(cands, ka, i, own).value.keys|
    ensures m < |ka| && EntryAt(cands, ka, own, m) == []
  {
    Matched(cands, ka, own, i);
    assert Covers(cands, ka, own, i, m);
  }

  lemma {:induction false} RunIsDropped(cands: seq<Cand>, ka: seq<Keys>, own: string, i: nat, m: nat)
    requires forall c | c in cands :: c.keys != []
    requires i < |ka| && Accepted(cands, ka, own, i)
    requires i < m <= i + |CandAt(cands, ka, i, own).value.keys| <= |ka|
    ensures EntriesFrom(cands, ka, own, m) == EntriesFrom(cands, ka, own, i + |CandAt(cands, ka, i, own).value.keys|)
    decreases |ka| - m
  {
    hide Accepted, CandAt, EntryAt;
    AcceptedIsSome(cands, ka, own, i);
    if m < i + |CandAt(cands, ka, i, own).value.keys| {
      InnerIsDropped(cands, ka, own, i, m);
      Ends(EntriesFrom(cands, ka, own, m + 1));
      RunIsDropped(cands, ka, own, i, m + 1);
    }
  }

  /** Behind an accepted run, and behind a position no run goes over, no accepted run goes on. */
  lemma NextIsFree(cands: seq<Cand>, ka: seq<Keys>, own: string, i: nat, next: nat)
    requires forall c | c in cands :: c.keys != []
    requires i < |ka| && !Covered(cands, ka, own, i)
    requires if Accepted(cands, ka, own, i) then next == i + |CandAt(cands, ka, i, own).value.keys| else next == i + 1
    ensures !Covered(cands, ka, own, next)
  {
    hide CandAt, Accepted;
    if Accepted(cands, ka, own, i) { AcceptedIsSome(cands, ka, own, i); }
    CoversBefore(cands, ka, own, i, next);
    if Covered(cands, ka, own, next) {
      var j :| 0 <= j < |ka| && Accepted(cands, ka, own, j) && Covers(cands, ka, own, j, next);
      NotOver(cands, ka, own, i, j);
    }
  }

  lemma CoversBefore(cands: seq<Cand>, ka: seq<Keys>, own: string, i: nat, next: nat)
    requires forall c | c in cands :: c.keys != []
    requires i < next
    ensures forall j: nat | j < i && Covers(cands, ka, own, j, next) :: Covers(cands, ka, own, j, i)
  {
  }

  lemma NotOver(cands: seq<Cand>, ka: seq<Keys>, own: string, i: nat, j: nat)
    requires forall c | c in cands :: c.keys != []
    requires i < |ka| && Accepted(cands, ka, own, j)
    ensures !Covers(cands, ka, own, i, j)
  {
  }

  lemma {:induction false} SubstitutedJoined(a: seq<Entry>, b: seq<Entry>)
    ensures Substituted(a + b) == Substituted(a) + Substituted(b)
  {
    if a == [] {
      assert a + b == b;
    } else {
      assert (a + b)[1..] == a[1..] + b;
      SubstitutedJoined(a[1..], b);
    }
  }

  lemma SubstitutedOne(e: Entry)
    ensures Substituted([e]) == if e.Kept? then [e.alt] else Followed(e.cand.keys, e.tail)
  {
    assert [e][1..] == [];
    assert Substituted([]) == [];
  }

  lemma {:induction false} EntriesSubstitute(cands: seq<Cand>, ka: seq<Keys>, own: string, i: nat)
    requires CleanCands(cands) && AllClean(ka)
    requires i <= |ka| && (i < |ka| ==> !Covered(cands, ka, own, i))
    ensures Substituted(EntriesFrom(cands, ka, own, i)) == ka[i..]
    decreases |ka| - i
  {
    hide Covered, Accepted, CandAt, Followed, Substituted, CandMatches;
    if i < |ka| {
      var next := EntryStep(cands, ka, own, i);
      EntriesSubstitute(cands, ka, own, next);
      assert ka[i..] == ka[i..next] + ka[next..];
    } else {
      NothingSubstituted();
    }
  }

  lemma NothingSubstituted()
    ensures Substituted([]) == []
  {
  }

  /** One entry, and the positions it stands for. */
  lemma EntryStep(cands: seq<Cand>, ka: seq<Keys>, own: string, i: nat) returns (next: nat)
    requires CleanCands(cands) && AllClean(ka)
    requires i < |ka| && !Covered(cands, ka, own, i)
    ensures i < next <= |ka| && (next < |ka| ==> !Covered(cands, ka, own, next))
    ensures Substituted(EntriesFrom(cands, ka, own, i))
         == ka[i..next] + Substituted(EntriesFrom(cands, ka, own, next))
  {
    hide Covered, Accepted, CandAt, Followed, Substituted, CandMatches;
    if Accepted(cands, ka, own, i) {
      AcceptedIsSome(cands, ka, own, i);
      var c := CandAt(cands, ka, i, own).value;
      Matched(cands, ka, own, i);
      MatchedFits(c, ka, i);
      next := i + |c.keys|;
      RunIsDropped(cands, ka, own, i, i + 1);
      RunIsFollowed(c, ka, i);
      var e := Ref(c, ka[i].ks[|c.keys[0].ks|..]);
      SubstitutedOne(e);
      SubstitutedJoined([e], EntriesFrom(cands, ka, own, next));
    } else {
      next := i + 1;
      SubstitutedOne(Kept(ka[i]));
      SubstitutedJoined([Kept(ka[i])], EntriesFrom(cands, ka, own, next));
      assert ka[i..i + 1] == [ka[i]];
    }
    NextIsFree(cands, ka, own, i, next);
  }

  lemma AcceptedIsSome(cands: seq<Cand>, ka: seq<Keys>, own: string, i: nat)
    requires forall c | c in cands :: c.keys != []
    requires Accepted(cands, ka, own, i)
    ensures CandAt(cands, ka, i, own).Some? && CandAt(cands, ka, i, own).value.keys != []
  {
  }

  lemma MatchedFits(c: Cand, ka: seq<Keys>, i: nat)
    requires c.keys != [] && CandMatches(c, ka, i)
    ensures i + |c.keys| <= |ka|
  {
  }

  lemma {:induction false} KeptSubstitute(ka: seq<Keys>)
    ensures Substituted(AllKept(ka)) == ka
  {
    if ka != [] {
      KeptSubstitute(ka[1..]);
      assert AllKept(ka)[1..] == AllKept(ka[1..]);
    }
  }

  /**
   Substituting every reference that was written back gives the rule's alternatives again, the same ones
   in the same order; nothing else is left out, added or moved.
   */
  lemma UnsubKeepsAlternatives(cands: seq<Cand>, own: string, ka: seq<Keys>)
    requires CleanCands(cands) && AllClean(ka)
    ensures Substituted(Unsub(cands, own, ka)) == ka
  {
    KeptSubstitute(ka);
    if cands != [] {
      assert !Covered(cands, ka, own, 0);
      EntriesSubstitute(cands, ka, own, 0);
      assert ka[0..] == ka;
    }
  }

  /** Only a position that an accepted run goes over is left out of what is written. */
  lemma DroppedIffCovered(cands: seq<Cand>, ka: seq<Keys>, own: string, i: nat)
    requires forall c | c in cands :: c.keys != []
    requires i < |ka|
    ensures EntryAt(cands, ka, own, i) == [] <==> Covered(cands, ka, own, i)
  {
    if Covered(cands, ka, own, i) {
      var j :| 0 <= j < |ka| && Accepted(cands, ka, own, j) && Covers(cands, ka, own, j, i);
    }
  }

  /** No other match is longer than the one taken, and none as long comes before it. */
  lemma LargestIsTaken(cands: seq<Cand>, ka: seq<Keys>, i: nat, own: string) returns (k: nat)
    requires forall c | c in cands :: c.keys != []
    requires CandAt(cands, ka, i, own).Some?
    ensures var hits := Hits(cands, ka, i, own);
            && k < |hits| && CandAt(cands, ka, i, own) == Some(hits[k])
            && (forall l | 0 <= l < |hits| :: |hits[l].keys| <= |hits[k].keys|)
            && (forall l | 0 <= l < k :: |hits[l].keys| < |hits[k].keys|)
  {
    k := MostIsFirstLargest(Hits(cands, ka, i, own));
  }
}
