/**
 What a gap is, in the notation's own terms: blanks and comments of two kinds, a comment running from its opening
 to the first of its own closings. `Reader` steps over exactly these.
 */
module Gaps {
  import opened Text
  import opened Reader
  import opened Legal

  /** One piece of a gap. */
  datatype Piece = Blank(c: char) | Slash(body: string) | Paren(body: string)

  function PieceText(p: Piece): string {
    match p
    case Blank(c) => [c]
    case Slash(body) => "/*" + body + "*/"
    case Paren(body) => "(*" + body + "*)"
  }

  /** Whether a text ends with a closing and holds no other one. */
  predicate ClosesOnce(body: string, closing: string) {
    forall i | 0 <= i < |body| :: !(closing <= (body + closing)[i..])
  }

  predicate Holds(text: string, closing: string) {
    exists i :: 0 <= i <= |text| && closing <= text[i..]
  }

  predicate IsPiece(p: Piece) {
    match p
    case Blank(c) => c == ' ' || c == '\t' || c == '\r' || c == '\n'
    case Slash(body) => ClosesOnce(body, "*/")
    case Paren(body) => ClosesOnce(body, "*)")
  }

  predicate ArePieces(ps: seq<Piece>) {
    forall p | p in ps :: IsPiece(p)
  }

  function PiecesText(ps: seq<Piece>): string {
    if ps == [] then "" else PieceText(ps[0]) + PiecesText(ps[1..])
  }

  /** Whether a text begins with no blank and opens no comment. */
  predicate NoPieceBegins(s: string) {
    (s != "" ==> s[0] !in " \t\r\n") && !("/*" <= s) && !("(*" <= s)
  }

  /** Whether a text opens a comment that nothing in it closes. */
  predicate Unclosed(s: string) {
    ("/*" <= s && !Holds(s[2..], "*/")) || ("(*" <= s && !Holds(s[2..], "*)"))
  }

  // ---- one step

  lemma BeginsIff(s: string, a: char, b: char)
    ensures Begins(s, a, b) <==> [a, b] <= s
  {
  }

  /** The first place of a closing is where `Find` finds it. */
  lemma FindsClosing(body: string, b: char, rest: string)
    requires ClosesOnce(body, ['*', b]) && b != '*'
    ensures Find(body + ['*', b] + rest, '*', b) == |body|
  {
    var t := body + ['*', b];
    assert Begins((t + rest)[|body|..], '*', b);
    forall i | 0 <= i < |body| ensures !Begins((t + rest)[i..], '*', b) {
      assert !(['*', b] <= t[i..]);
      BeginsIff(t[i..], '*', b);
      BeginsAhead(t, rest, i, '*', b);
    }
  }

  lemma BeginsAhead(t: string, rest: string, i: nat, a: char, b: char)
    requires i + 2 <= |t|
    ensures Begins((t + rest)[i..], a, b) <==> Begins(t[i..], a, b)
  {
  }

  lemma FindsNone(s: string, b: char)
    ensures Find(s, '*', b) < 0 <==> !Holds(s, ['*', b])
  {
    var k := Find(s, '*', b);
    if k >= 0 {
      assert ['*', b] <= s[k..];
    } else if Holds(s, ['*', b]) {
      var i :| 0 <= i <= |s| && ['*', b] <= s[i..];
      BeginsIff(s[i..], '*', b);
    }
  }

  /** Before any text a piece is one step. */
  lemma StepsOverPiece(p: Piece, rest: string)
    requires IsPiece(p)
    ensures GapStep(PieceText(p) + rest) == |PieceText(p)| > 0
    ensures GapStarts(PieceText(p) + rest)
  {
    match p
    case Blank(c) =>
    case Slash(body) => StepsOverComment('/', '/', body, rest);
    case Paren(body) => StepsOverComment('(', ')', body, rest);
  }

  lemma StepsOverComment(a: char, b: char, body: string, rest: string)
    requires (a == '/' && b == '/') || (a == '(' && b == ')')
    requires ClosesOnce(body, ['*', b])
    ensures var t := [a, '*'] + body + ['*', b]; GapStep(t + rest) == |t| && GapStarts(t + rest)
  {
    hide Find, ClosesOnce;
    var t, u := [a, '*'] + body + ['*', b], body + ['*', b] + rest;
    FindsClosing(body, b, rest);
    assert t + rest == [a, '*'] + u;
    assert (t + rest)[2..] == u;
  }

  /** A step goes over one piece. */
  lemma PieceOfStep(s: string) returns (p: Piece)
    requires GapStep(s) > 0
    ensures IsPiece(p) && PieceText(p) == s[..GapStep(s)]
  {
    if Next(Spaces, s) {
      p := Blank(s[0]);
    } else {
      var k := Find(s[2..], '*', if s[0] == '/' then '/' else ')');
      p := CommentOfStep(s, if s[0] == '/' then '/' else ')', k);
    }
  }

  lemma CommentOfStep(s: string, b: char, k: nat) returns (p: Piece)
    requires (Begins(s, '/', '*') && b == '/') || (Begins(s, '(', '*') && b == ')')
    requires k == Find(s[2..], '*', b)
    ensures IsPiece(p) && k + 4 <= |s| && PieceText(p) == s[..k + 4]
  {
    hide Find, ClosesOnce;
    var body := s[2..][..k];
    FirstCloses(s[2..], b, k);
    assert s[..k + 4] == [s[0], '*'] + (body + ['*', b]);
    p := if b == '/' then Slash(body) else Paren(body);
  }

  lemma FirstCloses(t: string, b: char, k: nat)
    requires k == Find(t, '*', b)
    ensures k + 2 <= |t| && t[..k + 2] == t[..k] + ['*', b] && ClosesOnce(t[..k], ['*', b])
  {
    hide Find;
    var body := t[..k];
    var u, rest := t[..k + 2], t[k + 2..];
    assert Begins(t[k..], '*', b);
    assert u == body + ['*', b] && t == u + rest;
    forall i | 0 <= i < |body| ensures !(['*', b] <= u[i..]) {
      assert !Begins(t[i..], '*', b);
      BeginsAhead(u, rest, i, '*', b);
      BeginsIff(u[i..], '*', b);
    }
  }

  lemma NoStep(s: string)
    ensures GapStarts(s) <==> !NoPieceBegins(s)
    ensures GapStarts(s) && GapStep(s) == 0 <==> Unclosed(s)
  {
    BeginsIff(s, '/', '*');
    BeginsIff(s, '(', '*');
    if Opens(s) { FindsNone(s[2..], if s[0] == '/' then '/' else ')'); }
  }

  // ---- the laws

  /** A gap is the text of pieces, one after another. */
  lemma {:induction false} GapOfPieces(ps: seq<Piece>)
    requires ArePieces(ps)
    ensures IsGap(PiecesText(ps))
  {
    if ps != [] {
      var t, rest := PieceText(ps[0]), PiecesText(ps[1..]);
      StepsOverPiece(ps[0], rest);
      assert (t + rest)[|t|..] == rest;
      GapOfPieces(ps[1..]);
    }
  }

  lemma {:induction false} PiecesOfGap(t: string) returns (ps: seq<Piece>)
    requires IsGap(t)
    ensures ArePieces(ps) && PiecesText(ps) == t
  {
    if t == "" {
      ps := [];
    } else {
      var n := GapStep(t);
      var p := PieceOfStep(t);
      var more := PiecesOfGap(t[n..]);
      ps := [p] + more;
      assert ps[1..] == more && t == t[..n] + t[n..];
    }
  }

  lemma GapIffPieces(t: string)
    ensures IsGap(t) <==> exists ps :: ArePieces(ps) && PiecesText(ps) == t
  {
    if IsGap(t) { var ps := PiecesOfGap(t); }
    forall ps | ArePieces(ps) && PiecesText(ps) == t ensures IsGap(t) { GapOfPieces(ps); }
  }

  /** Pieces before a text that begins none are skipped, all of them and no more. */
  lemma SkipsPieces(ps: seq<Piece>, rest: string)
    requires ArePieces(ps) && NoPieceBegins(rest)
    ensures Skip(PiecesText(ps) + rest) == Got(PiecesText(ps), rest)
  {
    GapOfPieces(ps);
    NoStep(rest);
    SkipGap(PiecesText(ps), rest);
  }

  /** Behind any pieces a comment that never closes is the fault, at its opening. */
  lemma {:induction false} FaultsUnclosed(ps: seq<Piece>, rest: string)
    requires ArePieces(ps) && Unclosed(rest)
    ensures Skip(PiecesText(ps) + rest) == Bad(UnterminatedComment, |rest|)
  {
    NoStep(rest);
    SkipUnfolds(rest);
    if ps == [] {
      Ends(rest);
    } else {
      var t, u := PieceText(ps[0]), PiecesText(ps[1..]) + rest;
      Assoc(t, PiecesText(ps[1..]), rest);
      StepsOverPiece(ps[0], u);
      FaultsUnclosed(ps[1..], rest);
      SkipUnfolds(t + u);
      assert (t + u)[|t|..] == u;
    }
  }

  /** And every text is one of these: pieces, and then what begins none or what never closes. */
  lemma {:induction false} EveryTextBegins(s: string) returns (ps: seq<Piece>, rest: string)
    ensures ArePieces(ps) && s == PiecesText(ps) + rest
    ensures NoPieceBegins(rest) || Unclosed(rest)
    decreases |s|
  {
    NoStep(s);
    var n := GapStep(s);
    if n == 0 {
      ps, rest := [], s;
    } else {
      var p := PieceOfStep(s);
      var more;
      more, rest := EveryTextBegins(s[n..]);
      ps := [p] + more;
      assert ps[1..] == more;
      Cut(s, n);
      Assoc(PieceText(p), PiecesText(more), rest);
    }
  }
}
