/**
 The name the compiler gives a class's token, and the render's reading of a class from such a name:
 nothing but the case of its digits is lost.
 */
module ClassName {
  import opened Wrappers
  import opened Text
  import opened Strings
  import opened ClassWriter
  import opened Grammar
  import opened CharClass
  import opened ClassPattern

  // ---- from a pattern to a name

  function TrimEndOnce(s: string): string {
    if HasSuffix("_", s) then Before("_", s) else s
  }

  function TrimEnd(s: string): string {
    if HasSuffix("_", s) then TrimEndOnce(Before("_", s)) else s
  }

  function Underscored(u: string): string {
    Swap('[', '_', Swap(']', '_', Swap('^', '_', Swap('-', '_', Swap('\\', '_', Swap('{', '_', Swap('}', '_', u)))))))
  }

  /** `RX_` and the pattern in capitals, what is no letter or digit an underscore, none at the end. */
  function NameOf(pat: string): string {
    TrimEnd("RX_" + Underscored(Upper(Swap('u', 'U', Swap('s', 'S', pat)))))
  }

  // ---- from a name to a class

  datatype SetClass = SetClass(pat: string, flags: string)

  function LowerCase(c: char): char {
    if 'A' <= c <= 'F' then (c as int + 32) as char else c
  }

  function Lower(h: string): (l: string)
    ensures |l| == |h|
  {
    if h == "" then "" else [LowerCase(h[0])] + Lower(h[1..])
  }

  /** A member from the stretch of a name behind its `_U`. */
  datatype SetMember = SetMember(text: string, braced: bool, range: bool)

  function MemberOf(piece: string): SetMember {
    var parts := Split("_", piece);
    if parts[0] == "" then SetMember("\\u{" + Lower(if |parts| > 1 then parts[1] else "") + "}", true, |parts| == 4)
    else SetMember("\\u" + Lower(parts[0]), false, |parts| == 2)
  }

  function MembersBody(pieces: seq<string>): string {
    if pieces == [] then ""
    else
      var m := MemberOf(pieces[0]);
      m.text + (if m.range then "-" else "") + MembersBody(pieces[1..])
  }

  predicate AnyBraced(pieces: seq<string>) {
    pieces != [] && (MemberOf(pieces[0]).braced || AnyBraced(pieces[1..]))
  }

  /** The class a name gives, unless the name of that class is another. */
  function SetToken(name: string): Option<SetClass> {
    var rest := After("RX_", name);
    if rest == "__S_S" then Some(SetClass("[\\s\\S]", "u"))
    else
      var pieces := Split("_U", rest);
      var negated := pieces[0] == "__";
      var pat := "[" + (if negated then "^" else "") + MembersBody(pieces[1..]) + "]";
      if NameOf(pat) != name then None
      else Some(SetClass(pat, if negated || AnyBraced(pieces[1..]) then "u" else ""))
  }

  // ---- a name, character by character

  function NameChar(c: char): char {
    if c == 's' then 'S' else if c == 'u' then 'U'
    else if 'a' <= c <= 'f' then UpperDigit(c)
    else if c in "[]^-\\{}" then '_'
    else c
  }

  function Mapped(s: string): (m: string)
    ensures |m| == |s|
    ensures forall i | 0 <= i < |s| :: m[i] == NameChar(s[i])
  {
    if s == "" then "" else [NameChar(s[0])] + Mapped(s[1..])
  }

  lemma MappedIs(s: string, m: string)
    requires |m| == |s| && forall i | 0 <= i < |s| :: m[i] == NameChar(s[i])
    ensures Mapped(s) == m
  {
  }

  lemma MappedJoined(a: string, b: string)
    ensures Mapped(a + b) == Mapped(a) + Mapped(b)
  {
  }

  lemma UnderscoredIs(u: string)
    ensures |Underscored(u)| == |u|
    ensures forall i | 0 <= i < |u| :: Underscored(u)[i] == if u[i] in "[]^-\\{}" then '_' else u[i]
  {
    hide Swap;
    var a := Swap('}', '_', u);
    var b := Swap('{', '_', a);
    var c := Swap('\\', '_', b);
    var d := Swap('-', '_', c);
    var e := Swap('^', '_', d);
    var f := Swap(']', '_', e);
    SwapIs('}', '_', u);
    SwapIs('{', '_', a);
    SwapIs('\\', '_', b);
    SwapIs('-', '_', c);
    SwapIs('^', '_', d);
    SwapIs(']', '_', e);
    SwapIs('[', '_', f);
  }

  /** The swaps, one after another, change every character once. */
  lemma NameIsMapped(pat: string)
    ensures NameOf(pat) == TrimEnd("RX_" + Mapped(pat))
  {
    hide Swap, Underscored;
    var s := Swap('s', 'S', pat);
    var u := Swap('u', 'U', s);
    SwapIs('s', 'S', pat);
    SwapIs('u', 'U', s);
    forall i | 0 <= i < |u| ensures Upper(u)[i] == UpperDigit(u[i]) { UpperAt(u, i); }
    UnderscoredIs(Upper(u));
    MappedIs(pat, Underscored(Upper(u)));
  }

  // ---- the pieces of a name

  /** Pieces, each behind a separator. */
  function Each(sep: string, ps: seq<string>): string {
    if ps == [] then "" else sep + ps[0] + Each(sep, ps[1..])
  }

  lemma {:induction false} JoinIsEach(sep: string, p: string, ps: seq<string>)
    ensures Join(sep, [p] + ps) == p + Each(sep, ps)
    decreases ps
  {
    assert ([p] + ps)[1..] == ps;
    if ps == [] {
      Text.Ends(p);
    } else {
      JoinIsEach(sep, ps[0], ps[1..]);
      assert [ps[0]] + ps[1..] == ps;
      Assoc(p, sep, ps[0] + Each(sep, ps[1..]));
      Assoc(sep, ps[0], Each(sep, ps[1..]));
    }
  }

  /** A code as a name holds it: its digits in capitals, its braces underscores. */
  function Core(c: Code): string {
    if c.braced then "_" + Upper(c.digits) + "_" else Upper(c.digits)
  }

  /** A code at the end of a name. */
  function EndCore(c: Code): string {
    if c.braced then "_" + Upper(c.digits) else Upper(c.digits)
  }

  function NamePieces(rs: seq<Range>): seq<string> {
    if rs == [] then []
    else
      var r, last := rs[0], |rs| == 1;
      if r.hi.None? then [if last then EndCore(r.lo) else Core(r.lo)] + NamePieces(rs[1..])
      else [Core(r.lo) + "_"] + ([if last then EndCore(r.hi.value) else Core(r.hi.value)] + NamePieces(rs[1..]))
  }

  function LastCode(r: Range): Code {
    if r.hi.None? then r.lo else r.hi.value
  }

  /** The underscore that a last code's closing brace leaves. */
  function BraceTail(rs: seq<Range>): string
    requires rs != []
  {
    if LastCode(rs[|rs| - 1]).braced then "_" else ""
  }

  lemma CoreIsMapped(c: Code)
    requires ValidCode(c)
    ensures Mapped("\\u" + CodeText(c)) == "_U" + Core(c)
    ensures Mapped("\\u" + (CodeText(c) + "-")) == "_U" + (Core(c) + "_")
  {
    hide Mapped, Upper;
    var d := c.digits;
    forall i | 0 <= i < |d| ensures Upper(d)[i] == NameChar(d[i]) { UpperAt(d, i); }
    MappedIs(d, Upper(d));
    MappedIs("\\u", "_U");
    MappedIs("-", "_");
    if c.braced {
      MappedIs("{", "_");
      MappedIs("}", "_");
      MappedJoined("{", d);
      MappedJoined("{" + d, "}");
    }
    MappedJoined("\\u", CodeText(c));
    MappedJoined(CodeText(c), "-");
    MappedJoined("\\u", CodeText(c) + "-");
  }

  lemma {:induction false} RangesAreMapped(rs: seq<Range>)
    requires ValidRanges(rs) && rs != []
    ensures Mapped(Each("\\u", Pieces(rs))) == Each("_U", NamePieces(rs)) + BraceTail(rs)
  {
    hide Mapped, CodeText, Each, Pieces, NamePieces, Core, EndCore;
    var r, more := rs[0], rs[1..];
    assert ValidRange(r);
    var a, c := CodeText(LastCode(r)), Core(LastCode(r));
    var last := if more == [] then EndCore(LastCode(r)) else c;
    var rest, names := Each("\\u", Pieces(more)), Each("_U", NamePieces(more));
    CoreIsMapped(r.lo);
    CoreIsMapped(LastCode(r));
    EachOfPieces(rs);
    EachOfName(rs, last);
    MappedJoined("\\u" + a, rest);
    if more == [] {
      MappedNone();
      EachNone("_U");
      EachNone("\\u");
      EndIsBraced(LastCode(r));
      LastMapped(c, last, BraceTail(rs));
    } else {
      RangesAreMapped(more);
      assert BraceTail(rs) == BraceTail(more);
      Assoc("_U" + last, names, BraceTail(more));
    }
    assert Mapped("\\u" + a + rest) == "_U" + last + names + BraceTail(rs);
    if r.hi.Some? {
      MappedJoined("\\u" + (CodeText(r.lo) + "-"), "\\u" + a + rest);
      Assoc("_U" + (Core(r.lo) + "_"), "_U" + last + names, BraceTail(rs));
    }
  }

  lemma EndIsBraced(c: Code)
    ensures Core(c) == EndCore(c) + if c.braced then "_" else ""
  {
  }

  lemma LastMapped(core: string, last: string, tail: string)
    requires core == last + tail
    ensures "_U" + core + "" == "_U" + last + "" + tail
  {
  }

  /** A class's pattern begins with the pieces of its first member. */
  lemma EachOfPieces(rs: seq<Range>)
    requires rs != []
    ensures var t := "\\u" + CodeText(LastCode(rs[0])) + Each("\\u", Pieces(rs[1..]));
            Each("\\u", Pieces(rs)) == if rs[0].hi.None? then t else "\\u" + (CodeText(rs[0].lo) + "-") + t
  {
    hide CodeText;
    var a, ps := CodeText(LastCode(rs[0])), Pieces(rs[1..]);
    assert ([a] + ps)[1..] == ps;
    if rs[0].hi.Some? {
      var b := CodeText(rs[0].lo) + "-";
      assert [b, a] + ps == [b] + ([a] + ps);
      assert ([b] + ([a] + ps))[1..] == [a] + ps;
    }
  }

  lemma MappedNone()
    ensures Mapped("") == ""
  {
  }

  // ---- the name of a class

  /** What a name begins with after `RX_`: the opening bracket's underscore, and the caret's. */
  function Lead(negated: bool): string {
    if negated then "__" else "_"
  }

  function PlainName(negated: bool, rs: seq<Range>): string {
    "RX_" + (Lead(negated) + Each("_U", NamePieces(rs)))
  }

  lemma {:induction false} EachEnds(rs: seq<Range>)
    requires ValidRanges(rs) && rs != []
    ensures var t := Each("_U", NamePieces(rs)); t != "" && t[|t| - 1] != '_'
  {
    hide Each, NamePieces, Core, EndCore;
    var r, more := rs[0], rs[1..];
    assert ValidRange(r);
    var e := if more == [] then EndCore(LastCode(r)) else Core(LastCode(r));
    var rest := Each("_U", NamePieces(more));
    if more == [] { EachNone("_U"); } else { EachEnds(more); }
    LastIsDigit(LastCode(r), e, rest, more == []);
    EachOfName(rs, e);
    if r.hi.Some? { EndKept("_U" + (Core(r.lo) + "_"), "_U" + e + rest); }
  }

  lemma EachNone(lead: string)
    ensures Each(lead, NamePieces([])) == "" && Each(lead, Pieces([])) == ""
  {
  }

  /** A class's name begins with the pieces of its first member. */
  lemma EachOfName(rs: seq<Range>, last: string)
    requires rs != [] && last == if |rs| == 1 then EndCore(LastCode(rs[0])) else Core(LastCode(rs[0]))
    ensures var t := "_U" + last + Each("_U", NamePieces(rs[1..]));
            Each("_U", NamePieces(rs)) == if rs[0].hi.None? then t else "_U" + (Core(rs[0].lo) + "_") + t
  {
    hide Core, EndCore;
    var ps := NamePieces(rs[1..]);
    assert ([last] + ps)[1..] == ps;
    if rs[0].hi.Some? {
      assert NamePieces(rs)[1..] == [last] + ps;
    }
  }

  lemma EndKept(a: string, b: string)
    requires b != "" && b[|b| - 1] != '_'
    ensures a + b != "" && (a + b)[|a + b| - 1] != '_'
  {
  }

  lemma LastIsDigit(c: Code, e: string, rest: string, last: bool)
    requires ValidCode(c) && (last ==> rest == "" && e == EndCore(c))
    requires !last ==> rest != "" && rest[|rest| - 1] != '_'
    ensures var t := "_U" + e + rest; t[|t| - 1] != '_'
  {
  }

  lemma TrimmedOnce(s: string)
    requires s != "" && s[|s| - 1] != '_'
    ensures TrimEndOnce(s) == s
  {
    HasSuffixIff('_', s);
  }

  /** At most two underscores end a name, and both are taken off. */
  lemma Trimmed(s: string)
    requires s != "" && s[|s| - 1] != '_'
    ensures TrimEnd(s + "_") == s && TrimEnd(s + "_" + "_") == s
  {
    TrimmedOnce(s);
    BeforeLast('_', s);
    BeforeLast('_', s + "_");
  }

  lemma PatternIsMapped(negated: bool, rs: seq<Range>)
    requires ValidRanges(rs) && rs != []
    ensures Mapped(PatternText(negated, rs))
         == "_" + (Mapped(if negated then "^" else "") + (Each("_U", NamePieces(rs)) + BraceTail(rs))) + "_"
  {
    hide Mapped, Each, Pieces, NamePieces;
    var caret := if negated then "^" else "";
    var inner := Each("\\u", Pieces(rs));
    JoinIsEach("\\u", "", Pieces(rs));
    Text.Ends(inner);
    MappedJoined("[" + (caret + inner), "]");
    MappedJoined("[", caret + inner);
    MappedJoined(caret, inner);
    RangesAreMapped(rs);
    MappedParts(negated);
  }

  /** The name of a class, its characters in capitals and without what stands at its end. */
  lemma NameIs(negated: bool, rs: seq<Range>)
    requires ValidRanges(rs) && rs != []
    ensures NameOf(PatternText(negated, rs)) == PlainName(negated, rs)
  {
    hide Mapped, Each, Pieces, NamePieces, NameOf, PlainName, TrimEnd, PatternText;
    var each := Each("_U", NamePieces(rs));
    NameIsMapped(PatternText(negated, rs));
    PatternIsMapped(negated, rs);
    MappedParts(negated);
    EachEnds(rs);
    PlainNameIs(negated, rs);
    NameParts(Mapped(if negated then "^" else ""), each, BraceTail(rs));
    Text.Ends(PlainName(negated, rs));
    Trimmed(PlainName(negated, rs));
  }

  lemma NameParts(m: string, e: string, tail: string)
    ensures "RX_" + ("_" + (m + (e + tail)) + "_") == "RX_" + ("_" + m + e) + tail + "_"
  {
  }

  lemma PlainNameIs(negated: bool, rs: seq<Range>)
    ensures var e := Each("_U", NamePieces(rs));
            var n := PlainName(negated, rs);
            n == "RX_" + (Lead(negated) + e) && (e != "" ==> n[|n| - 1] == e[|e| - 1])
  {
  }

  lemma MappedParts(negated: bool)
    ensures Mapped("[") == "_" && Mapped("]") == "_"
    ensures "_" + Mapped(if negated then "^" else "") == Lead(negated)
  {
  }

  // ---- reading a name

  function LoweredCode(c: Code): Code {
    Code(Lower(c.digits), c.braced)
  }

  function LoweredRange(r: Range): Range {
    Range(LoweredCode(r.lo), if r.hi.None? then None else Some(LoweredCode(r.hi.value)))
  }

  function Lowered(rs: seq<Range>): (l: seq<Range>)
    ensures |l| == |rs|
  {
    if rs == [] then [] else [LoweredRange(rs[0])] + Lowered(rs[1..])
  }

  lemma {:induction false} LowerAt(h: string, i: nat)
    requires i < |h|
    ensures Lower(h)[i] == LowerCase(h[i])
  {
    if i > 0 { LowerAt(h[1..], i - 1); }
  }

  /** Capitals forget the case of digits, and only that. */
  lemma LowerUpper(h: string)
    requires All(HexDigits, h)
    ensures Lower(Upper(h)) == Lower(h) && Upper(Lower(h)) == Upper(h)
    ensures All(HexDigits, Lower(h)) && 'U' !in Upper(h) && '_' !in Upper(h)
  {
    forall i | 0 <= i < |h|
      ensures Lower(Upper(h))[i] == Lower(h)[i] && Upper(Lower(h))[i] == Upper(h)[i] && IsHex(Lower(h)[i])
    {
      UpperAt(h, i);
      LowerAt(h, i);
      LowerAt(Upper(h), i);
      UpperAt(Lower(h), i);
    }
  }

  lemma {:induction false} LoweredKeepsName(rs: seq<Range>)
    requires ValidRanges(rs)
    ensures ValidRanges(Lowered(rs)) && NamePieces(Lowered(rs)) == NamePieces(rs)
  {
    if rs != [] {
      assert ValidRange(rs[0]);
      LowerUpper(rs[0].lo.digits);
      LowerUpper(LastCode(rs[0]).digits);
      LoweredKeepsName(rs[1..]);
      assert Lowered(rs)[1..] == Lowered(rs[1..]);
    }
  }

  lemma JoinOn(sep: string, p: string, ps: seq<string>)
    requires ps != []
    ensures Join(sep, [p] + ps) == p + sep + Join(sep, ps)
  {
    assert ([p] + ps)[1..] == ps;
  }

  /** Digits between underscores, cut at each underscore. */
  lemma Underscores(d: string)
    requires '_' !in d
    ensures Split("_", d) == [d] && Split("_", d + "_") == [d, ""]
    ensures Split("_", "_" + d) == ["", d] && Split("_", "_" + d + "_") == ["", d, ""]
    ensures Split("_", "_" + d + "_" + "_") == ["", d, "", ""]
  {
    hide Join, Split;
    CutsIfAbsent("_", d);
    CutsIfAbsent("_", "");
    JoinOne(d);
    JoinOne("");
    JoinOn("_", d, [""]);
    JoinOn("_", "", [""]);
    JoinOn("_", d, [""] + [""]);
    JoinOn("_", "", [d]);
    JoinOn("_", "", [d] + [""]);
    JoinOn("_", "", [d] + ([""] + [""]));
    SplitOfJoin("_", [d]);
    SplitOfJoin("_", [d] + [""]);
    SplitOfJoin("_", [""] + [d]);
    SplitOfJoin("_", [""] + ([d] + [""]));
    SplitOfJoin("_", [""] + ([d] + ([""] + [""])));
    UnderscoresJoined(d);
  }

  lemma UnderscoresJoined(d: string)
    ensures d + "_" + "" == d + "_" && "" + "_" + d == "_" + d && "" + "_" + "" == "_"
    ensures "" + "_" + (d + "_") == "_" + d + "_" && "" + "_" + (d + "_" + "_") == "_" + d + "_" + "_"
  {
  }

  lemma JoinOne(p: string)
    ensures Join("_", [p]) == p
  {
  }

  /** A piece of a name is read back as the code it was made from. */
  lemma PieceIsRead(c: Code)
    requires ValidCode(c)
    ensures var t := "\\u" + CodeText(LoweredCode(c));
            && MemberOf(Core(c) + "_") == SetMember(t, c.braced, true)
            && MemberOf(Core(c)) == SetMember(t, c.braced, false)
            && MemberOf(EndCore(c)) == SetMember(t, c.braced, false)
  {
    hide Split, Upper, Lower;
    var d := Upper(c.digits);
    LowerUpper(c.digits);
    Underscores(d);
    Bracketed(Lower(c.digits));
  }

  lemma Bracketed(d: string)
    ensures "\\u{" + d + "}" == "\\u" + ("{" + d + "}")
  {
  }

  predicate HasBraced(rs: seq<Range>) {
    exists r :: r in rs && (r.lo.braced || LastCode(r).braced)
  }

  lemma {:induction false} BodyIsRead(rs: seq<Range>)
    requires ValidRanges(rs)
    ensures MembersBody(NamePieces(rs)) == Each("\\u", Pieces(Lowered(rs)))
    ensures AnyBraced(NamePieces(rs)) <==> HasBraced(rs)
  {
    hide MemberOf, Core, EndCore, CodeText, MembersBody, Each, AnyBraced;
    if rs == [] {
      NothingRead();
    } else {
      var r, more := rs[0], rs[1..];
      assert ValidRange(r);
      BodyIsRead(more);
      var e := if more == [] then EndCore(LastCode(r)) else Core(LastCode(r));
      var ps, qs := NamePieces(more), Pieces(Lowered(more));
      var a := CodeText(LoweredCode(LastCode(r)));
      EndIsRead(LastCode(r), e, ps, qs);
      assert Lowered(rs)[1..] == Lowered(more) && Lowered(rs)[0] == LoweredRange(r);
      assert HasBraced(rs) <==> r.lo.braced || LastCode(r).braced || HasBraced(more);
      if r.hi.Some? {
        StartIsRead(r.lo, [e] + ps, [a] + qs);
        assert [CodeText(LoweredCode(r.lo)) + "-", a] + qs == [CodeText(LoweredCode(r.lo)) + "-"] + ([a] + qs);
      }
    }
  }

  lemma NothingRead()
    ensures MembersBody([]) == Each("\\u", []) && !AnyBraced([])
  {
  }

  lemma EndIsRead(c: Code, e: string, ps: seq<string>, qs: seq<string>)
    requires ValidCode(c) && (e == Core(c) || e == EndCore(c)) && MembersBody(ps) == Each("\\u", qs)
    ensures MembersBody([e] + ps) == Each("\\u", [CodeText(LoweredCode(c))] + qs)
    ensures AnyBraced([e] + ps) <==> c.braced || AnyBraced(ps)
  {
    hide MemberOf, Core, EndCore, CodeText;
    PieceIsRead(c);
    assert ([e] + ps)[1..] == ps && ([CodeText(LoweredCode(c))] + qs)[1..] == qs;
    Text.Ends("\\u" + CodeText(LoweredCode(c)));
  }

  lemma StartIsRead(c: Code, ps: seq<string>, qs: seq<string>)
    requires ValidCode(c) && MembersBody(ps) == Each("\\u", qs)
    ensures MembersBody([Core(c) + "_"] + ps) == Each("\\u", [CodeText(LoweredCode(c)) + "-"] + qs)
    ensures AnyBraced([Core(c) + "_"] + ps) <==> c.braced || AnyBraced(ps)
  {
    hide MemberOf, Core, EndCore, CodeText;
    PieceIsRead(c);
    var t := CodeText(LoweredCode(c));
    assert ([Core(c) + "_"] + ps)[1..] == ps && ([t + "-"] + qs)[1..] == qs;
    Assoc("\\u", t, "-");
  }

  lemma {:induction false} NamePiecesCut(rs: seq<Range>)
    requires ValidRanges(rs)
    ensures forall p | p in NamePieces(rs) :: Cuts("_U", p)
  {
    if rs != [] {
      NamePiecesCut(rs[1..]);
      assert ValidRange(rs[0]);
      CoreCuts(rs[0].lo);
      CoreCuts(LastCode(rs[0]));
    }
  }

  lemma CoreCuts(c: Code)
    requires ValidCode(c)
    ensures Cuts("_U", Core(c)) && Cuts("_U", EndCore(c)) && Cuts("_U", Core(c) + "_")
  {
    LowerUpper(c.digits);
    CutsIfAbsent("_U", Core(c));
    CutsIfAbsent("_U", EndCore(c));
    CutsIfAbsent("_U", Core(c) + "_");
  }

  /** The stretch of a name behind `RX_`, cut into the pieces it was made from. */
  lemma NameIsCut(negated: bool, rs: seq<Range>)
    requires ValidRanges(rs) && rs != []
    ensures After("RX_", PlainName(negated, rs)) == Lead(negated) + Each("_U", NamePieces(rs))
    ensures Split("_U", Lead(negated) + Each("_U", NamePieces(rs))) == [Lead(negated)] + NamePieces(rs)
    ensures Lead(negated) + Each("_U", NamePieces(rs)) != "__S_S"
  {
    hide Each, Core, EndCore;
    var ps := NamePieces(rs);
    AfterFirst("RX_", Lead(negated) + Each("_U", ps));
    JoinIsEach("_U", Lead(negated), ps);
    NamePiecesCut(rs);
    CutsIfAbsent("_U", Lead(negated));
    SplitOfJoin("_U", [Lead(negated)] + ps);
    EachBegins(ps);
    var t := Lead(negated) + Each("_U", ps);
    assert t[|Lead(negated)| + 1] == 'U';
  }

  lemma EachBegins(ps: seq<string>)
    requires ps != []
    ensures Begins(Each("_U", ps), '_', 'U')
  {
  }

  /** The class read from a class's name is that class, its digits in lower case. */
  lemma NameIsRead(negated: bool, rs: seq<Range>)
    requires ValidRanges(rs) && rs != []
    ensures SetToken(NameOf(PatternText(negated, rs)))
         == Some(SetClass(PatternText(negated, Lowered(rs)), if negated || HasBraced(rs) then "u" else ""))
  {
    hide NameOf, NamePieces, Pieces, Each, MembersBody, AnyBraced;
    var ls := Lowered(rs);
    LoweredKeepsName(rs);
    NameIs(negated, rs);
    NameIs(negated, ls);
    assert PlainName(negated, ls) == PlainName(negated, rs);
    NameIsCut(negated, rs);
    BodyIsRead(rs);
    assert ([Lead(negated)] + NamePieces(rs))[1..] == NamePieces(rs);
    var body := Each("\\u", Pieces(ls));
    JoinIsEach("\\u", "", Pieces(ls));
    Text.Ends(body);
    Assoc("[", if negated then "^" else "", body);
  }

  lemma CodesDiffer(c: Code, d: Code)
    requires ValidCode(c) && ValidCode(d)
    ensures CodeText(c) == CodeText(d) ==> c == d
    ensures CodeText(c) + "-" == CodeText(d) + "-" ==> c == d
    ensures CodeText(c) + "-" != CodeText(d)
  {
    var s, t := CodeText(c), CodeText(d);
    Behind(s, "-");
    assert (s + "-")[..|s|] == s && (t + "-")[..|t|] == t;
    assert c.braced ==> s[1..|s| - 1] == c.digits;
    assert d.braced ==> t[1..|t| - 1] == d.digits;
    assert (s + "-")[|s|] == '-' && t[|t| - 1] != '-';
  }

  lemma {:induction false} PiecesDiffer(a: seq<Range>, b: seq<Range>)
    requires ValidRanges(a) && ValidRanges(b) && Pieces(a) == Pieces(b)
    ensures a == b
    decreases |a|
  {
    hide CodeText;
    if a != [] && b != [] {
      assert ValidRange(a[0]) && ValidRange(b[0]);
      CodesDiffer(a[0].lo, b[0].lo);
      CodesDiffer(b[0].lo, a[0].lo);
      PiecesHead(a);
      PiecesHead(b);
      CodesDiffer(LastCode(a[0]), LastCode(b[0]));
      PiecesDiffer(a[1..], b[1..]);
      assert a == [a[0]] + a[1..] && b == [b[0]] + b[1..];
    }
  }

  lemma PiecesHead(rs: seq<Range>)
    requires rs != []
    ensures Pieces(rs) != []
    ensures rs[0].hi.None? ==> Pieces(rs)[0] == CodeText(rs[0].lo) && Pieces(rs)[1..] == Pieces(rs[1..])
    ensures rs[0].hi.Some? ==> |Pieces(rs)| >= 2 && Pieces(rs)[2..] == Pieces(rs[1..])
    ensures rs[0].hi.Some? ==> Pieces(rs)[0] == CodeText(rs[0].lo) + "-" && Pieces(rs)[1] == CodeText(rs[0].hi.value)
  {
  }

  /** A pattern is the text of one class only. */
  lemma PatternsDiffer(n: bool, a: seq<Range>, m: bool, b: seq<Range>)
    requires ValidRanges(a) && ValidRanges(b) && a != [] && b != []
    requires PatternText(n, a) == PatternText(m, b)
    ensures n == m && a == b
  {
    hide Pieces, Split;
    var s, t := Join("\\u", [""] + Pieces(a)), Join("\\u", [""] + Pieces(b));
    NotAnything(a, s, PatternText(n, a));
    NotAnything(b, t, PatternText(m, b));
    assert PatternText(n, a)[1] == if n then '^' else '\\';
    assert PatternText(m, b)[1] == if m then '^' else '\\';
    SameInner(if n then "^" else "", s, t);
    PiecesCut(a);
    PiecesCut(b);
    assert Cuts("\\u", "") by { CutsIfAbsent("\\u", ""); }
    SplitOfJoin("\\u", [""] + Pieces(a));
    SplitOfJoin("\\u", [""] + Pieces(b));
    assert ([""] + Pieces(a))[1..] == Pieces(a) && ([""] + Pieces(b))[1..] == Pieces(b);
    PiecesDiffer(a, b);
  }

  lemma SameInner(lead: string, s: string, t: string)
    requires "[" + (lead + s) + "]" == "[" + (lead + t) + "]"
    ensures s == t
  {
    var u, v := "[" + (lead + s) + "]", "[" + (lead + t) + "]";
    assert u[1 + |lead|..|u| - 1] == s && v[1 + |lead|..|v| - 1] == t;
  }

  /** Where digits are in lower case, as every front-end writes them, the name gives the class back. */
  lemma NameRoundTrip(negated: bool, rs: seq<Range>)
    requires ValidRanges(rs) && rs != []
    ensures var r := SetToken(NameOf(PatternText(negated, rs)));
            r.Some? && (r.value.pat == PatternText(negated, rs) <==> Lowered(rs) == rs)
  {
    NameIsRead(negated, rs);
    if PatternText(negated, Lowered(rs)) == PatternText(negated, rs) {
      LoweredKeepsName(rs);
      PatternsDiffer(negated, Lowered(rs), negated, rs);
    }
  }

  /** Two classes have one name only where they are one class but for the case of their digits. */
  lemma NamesDiffer(n: bool, a: seq<Range>, m: bool, b: seq<Range>)
    requires ValidRanges(a) && ValidRanges(b) && a != [] && b != []
    ensures NameOf(PatternText(n, a)) == NameOf(PatternText(m, b)) <==> n == m && Lowered(a) == Lowered(b)
  {
    hide NameOf, PatternText, SetToken, Lowered;
    NameIsRead(n, a);
    NameIsRead(m, b);
    LoweredKeepsName(a);
    LoweredKeepsName(b);
    if NameOf(PatternText(n, a)) == NameOf(PatternText(m, b)) {
      PatternsDiffer(n, Lowered(a), m, Lowered(b));
    }
    if n == m && Lowered(a) == Lowered(b) {
      NameIs(n, a);
      NameIs(m, b);
    }
  }

  /** The pattern that stands for anything has a name of its own. */
  lemma AnyNameRoundTrip()
    ensures SetToken(NameOf("[\\s\\S]")) == Some(SetClass("[\\s\\S]", "u"))
  {
    hide NameOf, Split, TrimEnd, Mapped;
    NameIsMapped("[\\s\\S]");
    MappedIs("[\\s\\S]", "__S_S" + "_");
    AnyName();
    Trimmed("RX_" + "__S_S");
    AfterFirst("RX_", "__S_S");
  }

  lemma AnyName()
    ensures "RX_" + ("__S_S" + "_") == "RX_" + "__S_S" + "_"
  {
  }

  // ---- the classes the front-ends compile

  lemma LowerKept(h: string)
    requires forall c | c in h :: !('A' <= c <= 'F')
    ensures Lower(h) == h
  {
    forall i | 0 <= i < |h| ensures Lower(h)[i] == h[i] {
      LowerAt(h, i);
      assert h[i] in h;
    }
  }

  lemma {:induction false} HexIsLower(n: nat)
    ensures forall c | c in HexOf(n) :: !('A' <= c <= 'F')
  {
    if n >= 16 { HexIsLower(n / 16); }
  }

  lemma {:induction false} PaddedIsLower(h: string)
    requires forall c | c in h :: !('A' <= c <= 'F')
    ensures forall c | c in Padded(h) :: !('A' <= c <= 'F')
    decreases 4 - |h|
  {
    if |h| < 4 { PaddedIsLower("0" + h); }
  }

  lemma EscapeIsLower(n: nat, astral: bool)
    ensures LoweredCode(Escape(n, astral)) == Escape(n, astral)
  {
    HexIsLower(n);
    PaddedIsLower(HexOf(n));
    LowerKept(Escape(n, astral).digits);
  }

  lemma {:induction false} CompiledIsLower(parts: seq<Part>, astral: bool)
    ensures Lowered(RangesOf(parts, astral)) == RangesOf(parts, astral)
    ensures forall r | r in RangesOf(parts, astral) :: r.lo.braced == LastCode(r).braced == astral
  {
    hide Escape, LoweredCode;
    if parts != [] {
      var p := parts[0];
      EscapeIsLower(p.lo, astral);
      EscapeIsLower(p.hi, astral);
      BracedIfAstral(p.lo, astral);
      BracedIfAstral(p.hi, astral);
      CompiledIsLower(parts[1..], astral);
      assert RangesOf(parts, astral)[1..] == RangesOf(parts[1..], astral);
    }
  }

  lemma BracedIfAstral(n: nat, astral: bool)
    ensures Escape(n, astral).braced == astral
  {
  }

  lemma CompiledRanges(parts: seq<Part>) returns (rs: seq<Range>)
    requires parts != [] && forall p | p in parts :: Ordered(p)
    ensures rs == RangesOf(parts, Astral(parts)) && rs != [] && ValidRanges(rs) && PartsIn(rs) == parts
    ensures Lowered(rs) == rs && HasBraced(rs) == Astral(parts)
  {
    rs := RangesOf(parts, Astral(parts));
    forall p | p in parts ensures p.hi > 0xFFFF ==> Astral(parts) {}
    RangesAreValid(parts, Astral(parts));
    CompiledIsLower(parts, Astral(parts));
    assert rs != [] && rs[0] in rs;
  }

  /** Every class a front-end compiles comes back from its name: its pattern, and the flags that pattern needs. */
  lemma CompiledRoundTrip(negated: bool, parts: seq<Part>)
    requires parts != [] && forall p | p in parts :: Ordered(p)
    ensures SetToken(NameOf(Compiled(negated, parts)))
         == Some(SetClass(Compiled(negated, parts), if negated || Astral(parts) then "u" else ""))
  {
    hide PatternText, SetToken, NameOf, HasBraced, RangesOf, Astral;
    var rs := CompiledRanges(parts);
    NameIsRead(negated, rs);
  }

  /** So two of them have one name only where they are one class. */
  lemma CompiledNamesDiffer(n: bool, a: seq<Part>, m: bool, b: seq<Part>)
    requires a != [] && b != [] && (forall p | p in a + b :: Ordered(p))
    ensures NameOf(Compiled(n, a)) == NameOf(Compiled(m, b)) <==> n == m && a == b
  {
    hide PatternText, NameOf, HasBraced, RangesOf, Astral;
    forall p | p in a ensures Ordered(p) { assert p in a + b; }
    forall p | p in b ensures Ordered(p) { assert p in a + b; }
    var rs := CompiledRanges(a);
    var qs := CompiledRanges(b);
    NamesDiffer(n, rs, m, qs);
  }
}
