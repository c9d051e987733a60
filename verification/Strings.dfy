/** Cutting a text at every place a separator stands, and joining pieces again. */
module Strings {
  import opened Text

  predicate StartsWith(s: string, p: string) {
    |p| <= |s| && s[..|p|] == p
  }

  /** The first place a separator stands, or -1. */
  function IndexOf(sep: string, s: string): (k: int)
    requires sep != ""
    ensures -1 <= k
    ensures k >= 0 ==> k + |sep| <= |s| && s[k..k + |sep|] == sep
  {
    if StartsWith(s, sep) then 0
    else if s == "" then -1
    else
      var k := IndexOf(sep, s[1..]);
      if k < 0 then -1 else k + 1
  }

  function Split(sep: string, s: string): (r: seq<string>)
    requires sep != ""
    ensures r != []
    decreases |s|
  {
    var k := IndexOf(sep, s);
    if k < 0 then [s] else [s[..k]] + Split(sep, s[k + |sep|..])
  }

  function Join(sep: string, ps: seq<string>): string {
    if ps == [] then ""
    else if |ps| == 1 then ps[0]
    else ps[0] + sep + Join(sep, ps[1..])
  }

  /** Whether a text begins with `p`, ends with it; the text after its first `p`, before its last. */
  predicate HasPrefix(p: string, s: string)
    requires p != ""
  {
    s != "" && Split(p, s)[0] == ""
  }

  predicate HasSuffix(p: string, s: string)
    requires p != ""
  {
    s != "" && Split(p, s)[|Split(p, s)| - 1] == ""
  }

  function After(p: string, s: string): string
    requires p != ""
  {
    Join(p, Split(p, s)[1..])
  }

  function Before(p: string, s: string): string
    requires p != ""
  {
    var ps := Split(p, s);
    Join(p, ps[..|ps| - 1])
  }

  /** Cutting loses nothing. */
  lemma {:induction false} JoinOfSplit(sep: string, s: string)
    requires sep != ""
    ensures Join(sep, Split(sep, s)) == s
    decreases |s|
  {
    var k := IndexOf(sep, s);
    if k >= 0 {
      var t := s[k + |sep|..];
      JoinOfSplit(sep, t);
      assert ([s[..k]] + Split(sep, t))[1..] == Split(sep, t);
      assert s == s[..k] + s[k..k + |sep|] + t;
    }
  }

  /** Whether a separator put after a piece is the first one there. */
  predicate Cuts(sep: string, p: string)
    requires sep != ""
  {
    IndexOf(sep, p + sep) == |p|
  }

  lemma {:induction false} IndexWithin(sep: string, p: string, rest: string)
    requires sep != "" && Cuts(sep, p)
    ensures IndexOf(sep, p + sep + rest) == |p|
  {
    var s := p + sep + rest;
    assert s[..|sep|] == (p + sep)[..|sep|];
    if p == "" {
      assert s[..|sep|] == sep;
    } else {
      assert s[1..] == p[1..] + sep + rest;
      assert (p + sep)[1..] == p[1..] + sep;
      IndexWithin(sep, p[1..], rest);
    }
  }

  lemma {:induction false} IndexNone(sep: string, p: string)
    requires sep != "" && Cuts(sep, p)
    ensures IndexOf(sep, p) == -1
  {
    if p != "" {
      assert (p + sep)[1..] == p[1..] + sep;
      IndexNone(sep, p[1..]);
      assert |sep| <= |p| ==> (p + sep)[..|sep|] == p[..|sep|];
    }
  }

  /** Joining pieces that the separator cuts, then cutting, gives the pieces. */
  lemma {:induction false} SplitOfJoin(sep: string, ps: seq<string>)
    requires sep != "" && ps != []
    requires forall i | 0 <= i < |ps| :: Cuts(sep, ps[i])
    ensures Split(sep, Join(sep, ps)) == ps
  {
    if |ps| == 1 {
      IndexNone(sep, ps[0]);
    } else {
      hide Split, Cuts;
      SplitFirst(sep, ps[0], Join(sep, ps[1..]));
      SplitOfJoin(sep, ps[1..]);
      assert [ps[0]] + ps[1..] == ps;
    }
  }

  lemma SplitFirst(sep: string, p: string, rest: string)
    requires sep != "" && Cuts(sep, p)
    ensures Split(sep, p + sep + rest) == [p] + Split(sep, rest)
  {
    hide IndexOf, Split, Cuts;
    var s := p + sep + rest;
    IndexWithin(sep, p, rest);
    SplitUnfolds(sep, s);
    assert s[..|p|] == p && s[|p| + |sep|..] == rest;
  }

  /** A separator cuts every piece that its last character is not in, nor ahead of that character. */
  lemma {:induction false} CutsIfAbsent(sep: string, p: string)
    requires sep != "" && (|sep| == 1 || (|sep| == 2 && sep[0] != sep[1]))
    requires sep[|sep| - 1] !in p
    ensures Cuts(sep, p)
  {
    var s, n := p + sep, |sep|;
    if p == "" {
      assert s == sep && s[..n] == sep;
    } else {
      assert s[..n][n - 1] == s[n - 1] == if n - 1 < |p| then p[n - 1] else sep[n - 1 - |p|];
      assert s[1..] == p[1..] + sep;
      CutsIfAbsent(sep, p[1..]);
    }
  }

  lemma HasPrefixIff(p: string, s: string)
    requires p != ""
    ensures HasPrefix(p, s) <==> StartsWith(s, p)
  {
  }

  lemma AfterFirst(p: string, t: string)
    requires p != ""
    ensures After(p, p + t) == t && HasPrefix(p, p + t)
  {
    assert (p + t)[..|p|] == p && (p + t)[|p|..] == t;
    JoinOfSplit(p, t);
    assert Split(p, p + t) == [""] + Split(p, t);
    assert ([""] + Split(p, t))[1..] == Split(p, t);
  }

  lemma {:induction false} SplitAppended(c: char, t: string)
    ensures Split([c], t + [c]) == Split([c], t) + [""]
    decreases |t|
  {
    hide IndexOf;
    var k := IndexOf([c], t);
    IndexAppended(c, t);
    SplitUnfolds([c], t);
    SplitUnfolds([c], t + [c]);
    if k >= 0 {
      CutJoined(t, [c], k);
      CutJoined(t, [c], k + 1);
      SplitAppended(c, t[k + 1..]);
      Assoc([t[..k]], Split([c], t[k + 1..]), [""]);
    } else {
      assert (t + [c])[..|t|] == t && (t + [c])[|t| + 1..] == "";
      NothingToSplit([c]);
    }
  }

  lemma SplitUnfolds(sep: string, s: string)
    requires sep != ""
    ensures var k := IndexOf(sep, s);
            Split(sep, s) == if k < 0 then [s] else [s[..k]] + Split(sep, s[k + |sep|..])
  {
    hide IndexOf;
  }

  lemma NothingToSplit(sep: string)
    requires sep != ""
    ensures Split(sep, "") == [""]
  {
  }

  lemma {:induction false} IndexAppended(c: char, t: string)
    ensures var k := IndexOf([c], t); IndexOf([c], t + [c]) == if k < 0 then |t| else k
  {
    if t == "" {
      assert "" + [c] == [c];
    } else {
      assert (t + [c])[1..] == t[1..] + [c] && (t + [c])[0] == t[0];
      IndexAppended(c, t[1..]);
    }
  }

  lemma BeforeLast(c: char, t: string)
    ensures Before([c], t + [c]) == t && HasSuffix([c], t + [c])
  {
    SplitAppended(c, t);
    JoinOfSplit([c], t);
    assert (Split([c], t) + [""])[..|Split([c], t)|] == Split([c], t);
  }

  lemma {:induction false} HasSuffixIff(c: char, s: string)
    ensures HasSuffix([c], s) <==> s != "" && s[|s| - 1] == c
    decreases |s|
  {
    if s != "" {
      if s[|s| - 1] == c {
        BeforeLast(c, s[..|s| - 1]);
        assert s[..|s| - 1] + [c] == s;
      } else {
        LastPiece(c, s);
      }
    }
  }

  lemma {:induction false} LastPiece(c: char, s: string)
    requires s != "" && s[|s| - 1] != c
    ensures var ps := Split([c], s); ps[|ps| - 1] != ""
    decreases |s|
  {
    var k := IndexOf([c], s);
    if k >= 0 {
      assert s[k..k + 1] == [s[k]];
      LastPiece(c, s[k + 1..]);
    }
  }

  /** A text with one character put in another's place, as the render does it. */
  function Swap(a: char, b: char, s: string): string {
    Join([b], Split([a], s))
  }

  lemma SwapUnfolds(a: char, b: char, s: string)
    ensures var k := IndexOf([a], s);
            Swap(a, b, s) == if k < 0 then s else s[..k] + [b] + Swap(a, b, s[k + 1..])
  {
    hide IndexOf, Split;
    var k := IndexOf([a], s);
    SplitUnfolds([a], s);
    if k >= 0 {
      assert ([s[..k]] + Split([a], s[k + 1..]))[1..] == Split([a], s[k + 1..]);
    }
  }

  lemma {:induction false} SwapIs(a: char, b: char, s: string)
    ensures |Swap(a, b, s)| == |s|
    ensures forall i | 0 <= i < |s| :: Swap(a, b, s)[i] == if s[i] == a then b else s[i]
    decreases |s|
  {
    hide IndexOf, Swap;
    var k := IndexOf([a], s);
    IndexFirst(a, s);
    SwapUnfolds(a, b, s);
    if k >= 0 {
      SwapIs(a, b, s[k + 1..]);
      assert s[k..k + 1][0] == s[k] == a;
      SwapJoined(a, b, s, k, Swap(a, b, s[k + 1..]));
    }
  }

  lemma SwapJoined(a: char, b: char, s: string, k: nat, t: string)
    requires k < |s| && s[k] == a && (forall i | 0 <= i < k :: s[i] != a) && |t| == |s| - k - 1
    requires forall i | 0 <= i < |t| :: t[i] == if s[k + 1..][i] == a then b else s[k + 1..][i]
    ensures var u := s[..k] + [b] + t;
            |u| == |s| && forall i | 0 <= i < |s| :: u[i] == if s[i] == a then b else s[i]
  {
    var u := s[..k] + [b] + t;
    forall i | 0 <= i < |s| ensures u[i] == if s[i] == a then b else s[i] {
      if i > k { assert s[i] == s[k + 1..][i - k - 1]; }
    }
  }

  lemma {:induction false} IndexFirst(a: char, s: string)
    ensures var k := IndexOf([a], s); forall i | 0 <= i < |s| && (k < 0 || i < k) :: s[i] != a
  {
    if s != "" {
      IndexFirst(a, s[1..]);
      assert forall i | 1 <= i < |s| :: s[i] == s[1..][i - 1];
      if s[0] == a { assert s[..1] == [a]; }
    }
  }
}
