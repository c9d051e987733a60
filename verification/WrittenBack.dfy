/**
 Which references the render writes back: every run of a candidate that no run goes over, in the place where it
 stands, and nothing else. A run is said here by the alternatives it is, and not by how it is found.
 */
module WrittenBack {
  import opened Wrappers
  import opened Text
  import opened Strings
  import opened References

  /** Whether a candidate's alternatives, each followed by one tail, are the ones from a position on. */
  predicate Stands(c: Cand, ka: seq<Keys>, i: nat, tail: seq<string>) {
    c.keys != [] && i + |c.keys| <= |ka| && ka[i..i + |c.keys|] == Followed(c.keys, tail)
  }

  /** Whether a rule other than the one that is written stands at a position. */
  ghost predicate MayStand(c: Cand, own: string, ka: seq<Keys>, i: nat) {
    c.name != own && exists tail :: Stands(c, ka, i, tail)
  }

  /** Whether a candidate is the first with the most alternatives of those that stand at a position. */
  ghost predicate Taken(cands: seq<Cand>, own: string, ka: seq<Keys>, i: nat, k: nat) {
    && k < |cands| && MayStand(cands[k], own, ka, i)
    && forall l | 0 <= l < |cands| && MayStand(cands[l], own, ka, i) ::
         |cands[l].keys| < |cands[k].keys| || (|cands[l].keys| == |cands[k].keys| && k <= l)
  }

  /** Whether every run that begins before a position ends before it. */
  ghost predicate NoneGoesOver(cands: seq<Cand>, own: string, ka: seq<Keys>, i: nat) {
    forall j: nat, l: nat | j < i && Taken(cands, own, ka, j, l) :: j + |cands[l].keys| <= i
  }

  /** Whether a run that is to be written stands at a position. */
  ghost predicate HasRun(cands: seq<Cand>, own: string, ka: seq<Keys>, i: nat) {
    (exists k: nat :: Taken(cands, own, ka, i, k)) && NoneGoesOver(cands, own, ka, i)
  }

  /** Whether an entry is what is to be written for the alternatives from a position on. */
  ghost predicate IsEntry(e: Entry, cands: seq<Cand>, own: string, ka: seq<Keys>, i: nat) {
    match e
    case Kept(alt) => !HasRun(cands, own, ka, i) && i < |ka| && alt == ka[i]
    case Ref(c, tail) =>
      && HasRun(cands, own, ka, i) && Stands(c, ka, i, tail)
      && exists k: nat :: Taken(cands, own, ka, i, k) && cands[k] == c
  }

  // ---- a run is found where it stands

  lemma MatchesIff(c: Cand, ka: seq<Keys>, i: nat)
    requires c.keys != [] && AllClean(c.keys) && AllClean(ka)
    ensures CandMatches(c, ka, i) <==> exists tail :: Stands(c, ka, i, tail)
  {
    if CandMatches(c, ka, i) {
      RunIsFollowed(c, ka, i);
      assert Stands(c, ka, i, ka[i].ks[|c.keys[0].ks|..]);
    }
    forall tail | Stands(c, ka, i, tail) ensures CandMatches(c, ka, i) { StandsMatches(c, ka, i, tail); }
  }

  lemma StandsMatches(c: Cand, ka: seq<Keys>, i: nat, tail: seq<string>)
    requires Stands(c, ka, i, tail)
    ensures CandMatches(c, ka, i) && |c.keys[0].ks| <= |ka[i].ks| && ka[i].ks[|c.keys[0].ks|..] == tail
  {
    forall j | 0 <= j < |c.keys| ensures PrefixTail(ka[i + j].ks, c.keys[j].ks) == Some(Join(MARK, tail)) {
      assert ka[i + j] == ka[i..i + |c.keys|][j] == Keys(c.keys[j].ks + tail);
      var ks, cs := ka[i + j].ks, c.keys[j].ks;
      assert ks[..|cs|] == cs && ks[|cs|..] == tail;
    }
    assert ka[i + 0] == Keys(c.keys[0].ks + tail);
  }

  predicate Found(c: Cand, own: string, ka: seq<Keys>, i: nat)
    requires c.keys != []
  {
    c.name != own && CandMatches(c, ka, i)
  }

  /** `Taken`, of what the search finds. */
  predicate FirstLargest(cands: seq<Cand>, own: string, ka: seq<Keys>, i: nat, k: nat)
    requires forall c | c in cands :: c.keys != []
  {
    && k < |cands| && Found(cands[k], own, ka, i)
    && forall l | 0 <= l < |cands| && Found(cands[l], own, ka, i) ::
         |cands[l].keys| < |cands[k].keys| || (|cands[l].keys| == |cands[k].keys| && k <= l)
  }

  lemma TakenIff(cands: seq<Cand>, own: string, ka: seq<Keys>, i: nat, k: nat)
    requires CleanCands(cands) && AllClean(ka)
    ensures Taken(cands, own, ka, i, k) <==> FirstLargest(cands, own, ka, i, k)
  {
    hide CandMatches, Stands;
    forall l | 0 <= l < |cands| ensures MayStand(cands[l], own, ka, i) <==> Found(cands[l], own, ka, i) {
      assert cands[l] in cands;
      MatchesIff(cands[l], ka, i);
    }
  }

  lemma {:induction false} LargestFound(cands: seq<Cand>, own: string, ka: seq<Keys>, i: nat, k: nat)
    requires (forall c | c in cands :: c.keys != []) && FirstLargest(cands, own, ka, i, k)
    ensures CandAt(cands, ka, i, own) == Some(cands[k])
    decreases |cands|
  {
    hide CandMatches;
    var more := cands[1..];
    var hits := Hits(more, ka, i, own);
    if k > 0 {
      assert forall l | 0 <= l < |more| :: more[l] == cands[l + 1];
      LargestFound(more, own, ka, i, k - 1);
    }
    if Found(cands[0], own, ka, i) {
      assert ([cands[0]] + hits)[1..] == hits;
      if hits != [] {
        var c := Most(hits).value;
        var l :| 0 <= l < |more| && more[l] == c;
        assert cands[l + 1] == c;
      }
    } else {
      assert [] + hits == hits;
    }
  }

  lemma {:induction false} LargestExists(cands: seq<Cand>, own: string, ka: seq<Keys>, i: nat, l: nat) returns (k: nat)
    requires (forall c | c in cands :: c.keys != []) && l < |cands| && Found(cands[l], own, ka, i)
    ensures FirstLargest(cands, own, ka, i, k)
    decreases |cands|
  {
    hide Found;
    var more := cands[1..];
    assert forall m | 0 <= m < |more| :: more[m] == cands[m + 1];
    if m: nat :| m < |more| && Found(more[m], own, ka, i) {
      var n := LargestExists(more, own, ka, i, m);
      k := if Found(cands[0], own, ka, i) && |cands[0].keys| >= |more[n].keys| then 0 else n + 1;
    } else {
      k := 0;
    }
  }

  lemma FoundIsLargest(cands: seq<Cand>, own: string, ka: seq<Keys>, i: nat) returns (k: nat)
    requires (forall c | c in cands :: c.keys != []) && CandAt(cands, ka, i, own).Some?
    ensures FirstLargest(cands, own, ka, i, k) && CandAt(cands, ka, i, own) == Some(cands[k])
  {
    hide CandMatches, FirstLargest;
    var c := CandAt(cands, ka, i, own).value;
    assert c in Hits(cands, ka, i, own) && c in cands;
    var l :| 0 <= l < |cands| && cands[l] == c;
    k := LargestExists(cands, own, ka, i, l);
    LargestAt(cands, own, ka, i, k);
  }

  lemma AcceptedIff(cands: seq<Cand>, own: string, ka: seq<Keys>, i: nat)
    requires CleanCands(cands) && AllClean(ka) && i < |ka|
    ensures Accepted(cands, ka, own, i)
       <==> HasRun(cands, own, ka, i)
  {
    hide CandAt, Taken, FirstLargest;
    if Accepted(cands, ka, own, i) {
      var k := FoundIsLargest(cands, own, ka, i);
      TakenIff(cands, own, ka, i, k);
      forall j: nat, l: nat | j < i && Taken(cands, own, ka, j, l) ensures l < |cands| && j + |cands[l].keys| <= i {
        TakenIff(cands, own, ka, j, l);
        LargestAt(cands, own, ka, j, l);
        assert !Covers(cands, ka, own, j, i);
      }
    }
    if HasRun(cands, own, ka, i) {
      var k: nat :| Taken(cands, own, ka, i, k);
      TakenIff(cands, own, ka, i, k);
      LargestAt(cands, own, ka, i, k);
      forall j | 0 <= j < |ka| ensures !Covers(cands, ka, own, j, i) {
        if j < i && CandAt(cands, ka, j, own).Some? {
          var l := FoundIsLargest(cands, own, ka, j);
          TakenIff(cands, own, ka, j, l);
        }
      }
    }
  }

  lemma LargestAt(cands: seq<Cand>, own: string, ka: seq<Keys>, i: nat, k: nat)
    requires (forall c | c in cands :: c.keys != []) && FirstLargest(cands, own, ka, i, k)
    ensures k < |cands| && CandAt(cands, ka, i, own) == Some(cands[k])
  {
    LargestFound(cands, own, ka, i, k);
  }

  // ---- where an entry stands

  /** The entries from a free position on: the first, and those behind what it stands for. */
  lemma FirstEntry(cands: seq<Cand>, own: string, ka: seq<Keys>, p: nat) returns (e: Entry, next: nat)
    requires CleanCands(cands) && AllClean(ka) && p < |ka| && !Covered(cands, ka, own, p)
    ensures EntryAt(cands, ka, own, p) == [e]
    ensures p < next <= |ka| && !Covered(cands, ka, own, next)
    ensures EntriesFrom(cands, ka, own, p) == [e] + EntriesFrom(cands, ka, own, next)
    ensures Substituted([e]) == ka[p..next]
    ensures next == if Accepted(cands, ka, own, p) then p + |CandAt(cands, ka, p, own).value.keys| else p + 1
  {
    hide Covered, Accepted, CandAt, Followed, Substituted, CandMatches;
    if Accepted(cands, ka, own, p) {
      AcceptedIsSome(cands, ka, own, p);
      var c := CandAt(cands, ka, p, own).value;
      Matched(cands, ka, own, p);
      MatchedFits(c, ka, p);
      next := p + |c.keys|;
      RunIsDropped(cands, ka, own, p, p + 1);
      RunIsFollowed(c, ka, p);
      e := Ref(c, ka[p].ks[|c.keys[0].ks|..]);
    } else {
      next := p + 1;
      e := Kept(ka[p]);
      assert ka[p..p + 1] == [ka[p]];
    }
    SubstitutedOne(e);
    NextIsFree(cands, ka, own, p, next);
  }

  /** Whether entries up to the n-th stand for what is before a position, and the others for what is from it on. */
  predicate SplitsAt(cands: seq<Cand>, own: string, ka: seq<Keys>, out: seq<Entry>, p: nat, n: nat, i: nat)
    requires forall c | c in cands :: c.keys != []
  {
    n <= |out| && p <= i <= |ka| && Substituted(out[..n]) == ka[p..i] && out[n..] == EntriesFrom(cands, ka, own, i)
  }

  lemma SplitsStep(cands: seq<Cand>, own: string, ka: seq<Keys>, e: Entry, more: seq<Entry>,
                   p: nat, next: nat, n: nat, i: nat)
    requires CleanCands(cands) && p <= next <= |ka| && Substituted([e]) == ka[p..next]
    requires SplitsAt(cands, own, ka, more, next, n, i)
    ensures SplitsAt(cands, own, ka, [e] + more, p, n + 1, i)
  {
    hide EntriesFrom, Substituted;
    var out := [e] + more;
    assert out[..n + 1] == [e] + more[..n] && out[n + 1..] == more[n..];
    SubstitutedJoined([e], more[..n]);
    assert ka[p..i] == ka[p..next] + ka[next..i];
  }

  lemma SplitsHere(cands: seq<Cand>, own: string, ka: seq<Keys>, p: nat)
    requires CleanCands(cands) && p <= |ka|
    ensures SplitsAt(cands, own, ka, EntriesFrom(cands, ka, own, p), p, 0, p)
  {
    var out := EntriesFrom(cands, ka, own, p);
    assert out[..0] == [] && out[0..] == out && ka[p..p] == [];
    NothingSubstituted();
  }

  /** Every free position has its place among the entries. */
  lemma {:induction false} PlaceOfFree(cands: seq<Cand>, own: string, ka: seq<Keys>, p: nat, i: nat) returns (n: nat)
    requires CleanCands(cands) && AllClean(ka) && p <= i <= |ka|
    requires !Covered(cands, ka, own, p) && !Covered(cands, ka, own, i)
    ensures SplitsAt(cands, own, ka, EntriesFrom(cands, ka, own, p), p, n, i) && (p == i ==> n == 0)
    decreases i - p
  {
    hide Covered, Accepted, CandAt, EntriesFrom, SplitsAt, EntryAt, Substituted;
    if p == i {
      n := 0;
      SplitsHere(cands, own, ka, p);
    } else {
      var e, next := FirstEntry(cands, own, ka, p);
      NextNotPast(cands, own, ka, p, next, i);
      var m := PlaceOfFree(cands, own, ka, next, i);
      SplitsStep(cands, own, ka, e, EntriesFrom(cands, ka, own, next), p, next, m, i);
      n := m + 1;
    }
  }

  lemma NextNotPast(cands: seq<Cand>, own: string, ka: seq<Keys>, p: nat, next: nat, i: nat)
    requires (forall c | c in cands :: c.keys != []) && p < i <= |ka| && !Covered(cands, ka, own, i)
    requires next == if Accepted(cands, ka, own, p) then
                       AcceptedIsSome(cands, ka, own, p); p + |CandAt(cands, ka, p, own).value.keys|
                     else p + 1
    ensures next <= i
  {
    hide CandAt;
  }

  /** And every entry stands at a free position. */
  lemma {:induction false} PlaceOfEntry(cands: seq<Cand>, own: string, ka: seq<Keys>, p: nat, n: nat) returns (i: nat)
    requires CleanCands(cands) && AllClean(ka) && p <= |ka| && !Covered(cands, ka, own, p)
    requires n < |EntriesFrom(cands, ka, own, p)|
    ensures i < |ka| && !Covered(cands, ka, own, i)
    ensures SplitsAt(cands, own, ka, EntriesFrom(cands, ka, own, p), p, n, i)
    decreases n
  {
    hide Covered, Accepted, CandAt, EntriesFrom, SplitsAt, EntryAt, Substituted;
    if p == |ka| { NoEntries(cands, own, ka); }
    if n == 0 {
      i := p;
      SplitsHere(cands, own, ka, p);
    } else {
      var e, next := FirstEntry(cands, own, ka, p);
      i := PlaceOfEntry(cands, own, ka, next, n - 1);
      SplitsStep(cands, own, ka, e, EntriesFrom(cands, ka, own, next), p, next, n - 1, i);
    }
  }

  lemma NoEntries(cands: seq<Cand>, own: string, ka: seq<Keys>)
    requires forall c | c in cands :: c.keys != []
    ensures EntriesFrom(cands, ka, own, |ka|) == []
  {
  }

  // ---- the laws

  /** Whether a run is all of the rule, with nothing behind it. */
  predicate IsWhole(c: Cand, ka: seq<Keys>, i: nat, tail: seq<string>) {
    i == 0 && |c.keys| == |ka| && tail == []
  }

  lemma {:induction false} AllKeptIs(ka: seq<Keys>)
    ensures |AllKept(ka)| == |ka| && forall i | 0 <= i < |ka| :: AllKept(ka)[i] == Kept(ka[i])
  {
    if ka != [] { AllKeptIs(ka[1..]); }
  }

  /**
   A run that no run goes over is written as its reference and tail, in its place; except that a rule that would
   come to be that reference alone stays as it was.
   */
  lemma RunIsWritten(cands: seq<Cand>, own: string, ka: seq<Keys>, i: nat, k: nat, tail: seq<string>)
    requires CleanCands(cands) && AllClean(ka)
    requires Taken(cands, own, ka, i, k) && Stands(cands[k], ka, i, tail) && NoneGoesOver(cands, own, ka, i)
    ensures var out := Unsub(cands, own, ka);
            if IsWhole(cands[k], ka, i, tail) then out == AllKept(ka)
            else exists n :: 0 <= n < |out| && out[n] == Ref(cands[k], tail) && Substituted(out[..n]) == ka[..i]
  {
    hide Taken, Stands, Accepted, Covered, CandAt, EntriesFrom, Substituted, NoneGoesOver, IsWhole, Unsub;
    TakenAccepted(cands, own, ka, i, k, tail);
    var c := cands[k];
    var out := EntriesFrom(cands, ka, own, 0);
    StartIsFree(cands, own, ka);
    var n := PlaceOfFree(cands, own, ka, 0, i);
    var e, next := FirstEntry(cands, own, ka, i);
    PlacedAt(cands, own, ka, out, n, i, e, EntriesFrom(cands, ka, own, next));
    assert e == Ref(c, tail);
    AliasIff(cands, own, ka, out, n, i, c, tail, next);
    UnsubIs(cands, own, ka);
  }

  lemma StartIsFree(cands: seq<Cand>, own: string, ka: seq<Keys>)
    requires forall c | c in cands :: c.keys != []
    ensures !Covered(cands, ka, own, 0)
  {
  }

  lemma UnsubIs(cands: seq<Cand>, own: string, ka: seq<Keys>)
    requires cands != [] && forall c | c in cands :: c.keys != []
    ensures var out := EntriesFrom(cands, ka, own, 0);
            Unsub(cands, own, ka) == if Alias(out) then AllKept(ka) else out
  {
  }

  lemma TakenAccepted(cands: seq<Cand>, own: string, ka: seq<Keys>, i: nat, k: nat, tail: seq<string>)
    requires CleanCands(cands) && AllClean(ka)
    requires Taken(cands, own, ka, i, k) && Stands(cands[k], ka, i, tail) && NoneGoesOver(cands, own, ka, i)
    ensures i < |ka| && k < |cands| && Accepted(cands, ka, own, i) && !Covered(cands, ka, own, i)
    ensures CandAt(cands, ka, i, own) == Some(cands[k])
    ensures EntryAt(cands, ka, own, i) == [Ref(cands[k], tail)] && i + |cands[k].keys| <= |ka|
  {
    hide CandAt, Taken, FirstLargest, CandMatches;
    AcceptedIff(cands, own, ka, i);
    TakenIff(cands, own, ka, i, k);
    LargestAt(cands, own, ka, i, k);
    StandsMatches(cands[k], ka, i, tail);
  }

  lemma PlacedAt(cands: seq<Cand>, own: string, ka: seq<Keys>, out: seq<Entry>, n: nat, i: nat,
                 e: Entry, more: seq<Entry>)
    requires CleanCands(cands) && SplitsAt(cands, own, ka, out, 0, n, i)
    requires EntriesFrom(cands, ka, own, i) == [e] + more
    ensures n < |out| && out[n] == e && out[n + 1..] == more && Substituted(out[..n]) == ka[..i]
  {
    hide EntriesFrom, Substituted;
    assert out[n..][0] == e && out[n..][1..] == more;
    assert out[n + 1..] == out[n..][1..];
    assert ka[0..i] == ka[..i];
  }

  /** What is written is one reference alone exactly when that reference's run is the whole rule. */
  lemma AliasIff(cands: seq<Cand>, own: string, ka: seq<Keys>, out: seq<Entry>, n: nat, i: nat,
                 c: Cand, tail: seq<string>, next: nat)
    requires CleanCands(cands) && AllClean(ka) && i < next <= |ka| && next == i + |c.keys|
    requires n < |out| && out[n] == Ref(c, tail) && Substituted(out[..n]) == ka[..i] && (i == 0 ==> n == 0)
    requires out[n + 1..] == EntriesFrom(cands, ka, own, next) && !Covered(cands, ka, own, next)
    ensures Alias(out) <==> IsWhole(c, ka, i, tail)
  {
    hide Covered, EntriesFrom, Substituted;
    EntriesSubstitute(cands, ka, own, next);
    if Alias(out) {
      assert n == 0 && out[..0] == [] && out[1..] == [];
      NothingSubstituted();
      assert |ka[..i]| == i && |ka[next..]| == |ka| - next;
    }
    if IsWhole(c, ka, i, tail) {
      NoEntries(cands, own, ka);
    }
  }

  /** Nothing else is written: a reference stands for such a run, an alternative kept where none is. */
  lemma WrittenIsRun(cands: seq<Cand>, own: string, ka: seq<Keys>, n: nat)
    requires CleanCands(cands) && AllClean(ka) && n < |Unsub(cands, own, ka)|
    requires Unsub(cands, own, ka) != AllKept(ka)
    ensures var out := Unsub(cands, own, ka);
            var i := |Substituted(out[..n])|;
            i < |ka| && Substituted(out[..n]) == ka[..i] && IsEntry(out[n], cands, own, ka, i)
  {
    hide Accepted, Covered, CandAt, EntriesFrom, Substituted, EntryAt, IsEntry;
    StartIsFree(cands, own, ka);
    var out := EntriesFrom(cands, ka, own, 0);
    var i := PlaceOfEntry(cands, own, ka, 0, n);
    var e, next := FirstEntry(cands, own, ka, i);
    PlacedAt(cands, own, ka, out, n, i, e, EntriesFrom(cands, ka, own, next));
    EntryIs(cands, own, ka, i, e);
  }

  lemma StandsHere(c: Cand, ka: seq<Keys>, i: nat, tail: seq<string>)
    requires c.keys != [] && i + |c.keys| <= |ka| && ka[i..i + |c.keys|] == Followed(c.keys, tail)
    ensures Stands(c, ka, i, tail)
  {
  }

  lemma EntryIs(cands: seq<Cand>, own: string, ka: seq<Keys>, i: nat, e: Entry)
    requires CleanCands(cands) && AllClean(ka) && i < |ka| && EntryAt(cands, ka, own, i) == [e]
    ensures IsEntry(e, cands, own, ka, i)
  {
    hide CandAt, Taken, FirstLargest, CandMatches, Covered, NoneGoesOver, Stands;
    AcceptedIff(cands, own, ka, i);
    if Accepted(cands, ka, own, i) {
      Matched(cands, ka, own, i);
      MatchedFits(e.cand, ka, i);
      RunIsFollowed(e.cand, ka, i);
      StandsHere(e.cand, ka, i, e.tail);
      var k := FoundIsLargest(cands, own, ka, i);
      TakenIff(cands, own, ka, i, k);
    }
  }

  /** How many alternatives references save. */
  function Saved(out: seq<Entry>): int {
    if out == [] then 0 else (if out[0].Ref? then |out[0].cand.keys| - 1 else 0) + Saved(out[1..])
  }

  lemma {:induction false} SubstitutedLength(out: seq<Entry>)
    ensures |Substituted(out)| == |out| + Saved(out)
  {
    if out != [] { SubstitutedLength(out[1..]); }
  }

  /** The rule is shorter by what its references save. */
  lemma WrittenLength(cands: seq<Cand>, own: string, ka: seq<Keys>)
    requires CleanCands(cands) && AllClean(ka)
    ensures |Unsub(cands, own, ka)| == |ka| - Saved(Unsub(cands, own, ka))
  {
    hide Unsub;
    UnsubKeepsAlternatives(cands, own, ka);
    SubstitutedLength(Unsub(cands, own, ka));
  }
}
