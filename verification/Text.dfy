/** Characters and the stretches of text the EBNF notation is read by. */
module Text {

  predicate IsSpace(c: char) {
    c == ' ' || c == '\t' || c == '\r' || c == '\n'
  }

  predicate IsHex(c: char) {
    '0' <= c <= '9' || 'a' <= c <= 'f' || 'A' <= c <= 'F'
  }

  predicate IsNameStart(c: char) {
    'A' <= c <= 'Z' || 'a' <= c <= 'z' || c == '_'
  }

  predicate IsNameChar(c: char) {
    IsNameStart(c) || '0' <= c <= '9' || c == '.' || c == '-'
  }

  predicate IsPostfix(c: char) {
    c == '?' || c == '*' || c == '+'
  }

  /** The kinds of character a scan runs over: the body of a string runs up to its quote or a control. */
  datatype Kind = Spaces | HexDigits | NameChars | Postfixes | StringChars(quote: char) | ClassChars

  predicate Is(k: Kind, c: char) {
    match k
    case Spaces => IsSpace(c)
    case HexDigits => IsHex(c)
    case NameChars => IsNameChar(c)
    case Postfixes => IsPostfix(c)
    case StringChars(q) => c != q && c >= ' '
    case ClassChars => c != ']' && c != '\n'
  }

  predicate All(k: Kind, s: string) {
    forall i | 0 <= i < |s| :: Is(k, s[i])
  }

  predicate ValidName(s: string) {
    s != "" && IsNameStart(s[0]) && All(NameChars, s)
  }

  /** Whether a text goes on with a character of the given kind. */
  predicate Next(k: Kind, s: string) {
    s != "" && Is(k, s[0])
  }

  /** The length of the longest prefix made of characters of one kind. */
  function Run(k: Kind, s: string): (n: nat)
    ensures n <= |s|
    ensures All(k, s[..n])
    ensures !Next(k, s[n..])
  {
    if Next(k, s) then 1 + Run(k, s[1..]) else 0
  }

  lemma RunUnfolds(k: Kind, s: string)
    ensures Run(k, s) == if Next(k, s) then 1 + Run(k, s[1..]) else 0
  {
  }

  lemma {:induction false} RunIs(k: Kind, a: string, rest: string)
    requires All(k, a)
    requires !Next(k, rest)
    ensures Run(k, a + rest) == |a|
    ensures (a + rest)[..|a|] == a && (a + rest)[|a|..] == rest
  {
    if a == "" {
      assert a + rest == rest;
    } else {
      assert (a + rest)[1..] == a[1..] + rest;
      RunIs(k, a[1..], rest);
    }
  }

  // ---- cutting and joining text

  lemma Assoc<T>(a: seq<T>, b: seq<T>, c: seq<T>)
    ensures a + (b + c) == (a + b) + c
  {
  }

  lemma Assoc3<T>(a: seq<T>, b: seq<T>, c: seq<T>, d: seq<T>)
    ensures a + (b + (c + d)) == (a + b + c) + d
  {
  }

  lemma Cut<T>(s: seq<T>, n: nat)
    requires n <= |s|
    ensures s[..n] + s[n..] == s
  {
  }

  lemma CutJoined<T>(a: seq<T>, b: seq<T>, n: nat)
    requires n <= |a|
    ensures (a + b)[..n] == a[..n] && (a + b)[n..] == a[n..] + b
  {
  }

  lemma Behind<T>(a: seq<T>, b: seq<T>)
    ensures (a + b)[|a|..] == b
  {
  }

  /** A text as its first k characters, the next n, one more and the rest. */
  lemma CutAround<T>(s: seq<T>, k: nat, n: nat)
    requires k + n < |s|
    ensures s == (s[..k] + s[k..][..n] + [s[k..][n]]) + s[k..][n + 1..]
  {
  }

  lemma Ends<T>(s: seq<T>)
    ensures s + [] == s && [] + s == s
  {
  }

  predicate At(s: string, c: char) {
    s != "" && s[0] == c
  }

  lemma Head(s: string, c: char)
    requires At(s, c)
    ensures s == [c] + s[1..]
  {
  }

  lemma Push(c: char, s: string)
    ensures At([c] + s, c) && ([c] + s)[1..] == s
  {
  }

  /** Whether a text begins with two given characters. */
  predicate Begins(s: string, a: char, b: char) {
    |s| >= 2 && s[0] == a && s[1] == b
  }

  /** The first place two characters stand together, or -1 where they stand nowhere. */
  function Find(s: string, a: char, b: char): (i: int)
    ensures -1 <= i <= |s| - 2 || i == -1
    ensures i >= 0 ==> Begins(s[i..], a, b)
    ensures forall j | 0 <= j < |s| && (i < 0 || j < i) :: !Begins(s[j..], a, b)
  {
    if Begins(s, a, b) then 0
    else if s == "" then -1
    else
      var k := Find(s[1..], a, b);
      assert forall j | 1 <= j < |s| :: s[j..] == s[1..][j - 1..];
      if k < 0 then -1 else k + 1
  }

  /** The value of hexadecimal digits. */
  function HexDigit(c: char): (n: nat)
    requires IsHex(c)
    ensures n < 16
  {
    if c <= '9' then c as int - '0' as int
    else if c <= 'F' then c as int - 'A' as int + 10
    else c as int - 'a' as int + 10
  }

  function HexValue(s: string): nat
    requires All(HexDigits, s)
  {
    if s == "" then 0 else 16 * HexValue(s[..|s| - 1]) + HexDigit(s[|s| - 1])
  }
}
