/**
 The concrete syntax of EBNF source: every character of a text, arranged by the construct it
 belongs to. Flattening gives the text back; locating gives the grammar IR with its spans.
 */
module Syntax {
  import opened Wrappers
  import opened Text
  import opened Grammar
  import opened CharClass

  datatype Atom =
    | Name(name: string)
    | Quoted(quote: char, body: string)
    | Hex(digits: string)
    | Class(negated: bool, members: string)
    | Paren(alts: seq<Seq>)

  /** An atom and the postfix operators that touch it, innermost first. */
  datatype Elem = Elem(atom: Atom, posts: string)

  /** An element, the gap before it and, where a comma comes first, the gap after the comma. */
  datatype Item = Item(lead: string, comma: Option<string>, elem: Elem)

  /** A concatenation and the gap after it. */
  datatype Seq = Seq(items: seq<Item>, post: string)

  /** A rule: `mid` is the gap before `::=` (`colons`) or `=`, `semi` whether a `;` ends it. */
  datatype Prod = Prod(lead: string, name: string, mid: string, colons: bool, alts: seq<Seq>, semi: bool)

  datatype File = File(prods: seq<Prod>, tail: string)

  // ---- the text of a construct

  function AtomText(a: Atom): string {
    match a
    case Name(n) => n
    case Quoted(q, b) => [q] + b + [q]
    case Hex(d) => "#x" + d
    case Class(neg, b) => (if neg then "[^" else "[") + b + "]"
    case Paren(alts) => "(" + AltsText(alts) + ")"
  }

  function ElemText(e: Elem): string {
    AtomText(e.atom) + e.posts
  }

  function GapOf(lead: string, comma: Option<string>): string {
    if comma.Some? then lead + "," + comma.value else lead
  }

  function GapText(i: Item): string {
    GapOf(i.lead, i.comma)
  }

  function ItemsText(items: seq<Item>): string {
    if items == [] then "" else GapText(items[0]) + ElemText(items[0].elem) + ItemsText(items[1..])
  }

  function SeqText(q: Seq): string {
    ItemsText(q.items) + q.post
  }

  lemma SeqTextPrepend(i: Item, q: Seq)
    ensures SeqText(Seq([i] + q.items, q.post)) == GapText(i) + ElemText(i.elem) + SeqText(q)
  {
    assert ([i] + q.items)[1..] == q.items;
    assert GapText(i) + ElemText(i.elem) + (ItemsText(q.items) + q.post)
        == (GapText(i) + ElemText(i.elem) + ItemsText(q.items)) + q.post;
  }

  function AltsText(alts: seq<Seq>): string {
    if alts == [] then "" else SeqText(alts[0]) + MoreText(alts[1..])
  }

  /** The alternatives after the first, each behind its bar. */
  function MoreText(alts: seq<Seq>): string {
    if alts == [] then "" else "|" + SeqText(alts[0]) + MoreText(alts[1..])
  }

  function DefText(colons: bool): string {
    if colons then "::=" else "="
  }

  function EndText(semi: bool): string {
    if semi then ";" else ""
  }

  function ProdText(p: Prod): string {
    p.lead + p.name + p.mid + DefText(p.colons) + AltsText(p.alts) + EndText(p.semi)
  }

  function ProdsText(ps: seq<Prod>): string {
    if ps == [] then "" else ProdText(ps[0]) + ProdsText(ps[1..])
  }

  function FileText(f: File): string {
    ProdsText(f.prods) + f.tail
  }

  // ---- the IR of a construct, spans aside

  /** The character a code point names; half of a surrogate pair names none. */
  function CharOf(cp: nat): char
    requires cp <= MAX_CODE_POINT
  {
    if Surrogate(cp) then 0xFFFD as char else cp as char
  }

  /** What the digits of a standalone code point denote. */
  function HexLiteral(digits: string): string {
    if All(HexDigits, digits) && HexValue(digits) <= MAX_CODE_POINT then [CharOf(HexValue(digits))] else ""
  }

  function PartsOf(body: string): seq<Part> {
    match Parts(body)
    case Fine(ps) => ps
    case Refused(_) => []
  }

  /** Postfix operators wrap left to right, so the last one written is outermost. */
  function Wrap(e: Element, posts: string): Element {
    if posts == "" then e
    else
      var op := posts[|posts| - 1];
      var i := Wrap(e, posts[..|posts| - 1]);
      if op == '?' then Opt(i) else if op == '*' then Star(i) else Plus(i)
  }

  function EraseAtom(a: Atom): Element {
    match a
    case Name(n) => Ref(n, None)
    case Quoted(_, b) => Term(b, None)
    case Hex(d) => Term(HexLiteral(d), None)
    case Class(neg, b) => Regex(neg, PartsOf(b), None)
    case Paren(alts) => Group(EraseAlts(alts), None)
  }

  function EraseElem(e: Elem): Element {
    Wrap(EraseAtom(e.atom), e.posts)
  }

  function EraseItems(items: seq<Item>): (r: seq<Element>)
    ensures |r| == |items|
  {
    if items == [] then [] else [EraseElem(items[0].elem)] + EraseItems(items[1..])
  }

  function EraseAlts(alts: seq<Seq>): (r: seq<Sequence>)
    ensures |r| == |alts|
  {
    if alts == [] then [] else [Sequence(EraseItems(alts[0].items))] + EraseAlts(alts[1..])
  }

  function EraseProds(ps: seq<Prod>): (r: seq<Production>)
    ensures |r| == |ps|
  {
    if ps == [] then [] else [Production(ps[0].name, EraseAlts(ps[0].alts), None)] + EraseProds(ps[1..])
  }

  // ---- lines, columns and spans

  /** The line of an offset: one more than the line feeds before it. */
  function LineAt(src: string, i: nat): nat
    requires i <= |src|
  {
    if i == 0 then 1 else LineAt(src, i - 1) + if src[i - 1] == '\n' then 1 else 0
  }

  /** The column of an offset: one more than the characters since the last line feed. */
  function ColAt(src: string, i: nat): nat
    requires i <= |src|
  {
    if i == 0 || src[i - 1] == '\n' then 1 else ColAt(src, i - 1) + 1
  }

  function SpanAt(src: string, i: nat, n: nat): Option<Span>
    requires i + n <= |src|
  {
    Some(Span(i, i + n, LineAt(src, i), ColAt(src, i)))
  }

  /** Whether a construct's text stands at an offset of the source. */
  predicate Stands(text: string, src: string, at: nat) {
    at + |text| <= |src| && src[at..at + |text|] == text
  }

  function LocAtom(a: Atom, src: string, at: nat): Element
    requires at + |AtomText(a)| <= |src|
  {
    var sp := SpanAt(src, at, |AtomText(a)|);
    match a
    case Name(n) => Ref(n, sp)
    case Quoted(_, b) => Term(b, sp)
    case Hex(d) => Term(HexLiteral(d), sp)
    case Class(neg, b) => Regex(neg, PartsOf(b), sp)
    case Paren(alts) => Group(LocAlts(alts, src, at + 1), sp)
  }

  function LocElem(e: Elem, src: string, at: nat): Element
    requires at + |ElemText(e)| <= |src|
  {
    Wrap(LocAtom(e.atom, src, at), e.posts)
  }

  function LocItems(items: seq<Item>, src: string, at: nat): (r: seq<Element>)
    requires at + |ItemsText(items)| <= |src|
    ensures |r| == |items|
  {
    if items == [] then []
    else
      var i := at + |GapText(items[0])|;
      [LocElem(items[0].elem, src, i)] + LocItems(items[1..], src, i + |ElemText(items[0].elem)|)
  }

  function LocAlts(alts: seq<Seq>, src: string, at: nat): (r: seq<Sequence>)
    requires at + |AltsText(alts)| <= |src|
    ensures |r| == |alts|
  {
    if alts == [] then []
    else
      assert |ItemsText(alts[0].items)| <= |SeqText(alts[0])|;
      [Sequence(LocItems(alts[0].items, src, at))] + LocMore(alts[1..], src, at + |SeqText(alts[0])|)
  }

  function LocMore(alts: seq<Seq>, src: string, at: nat): (r: seq<Sequence>)
    requires at + |MoreText(alts)| <= |src|
    ensures |r| == |alts|
  {
    if alts == [] then []
    else
      assert |ItemsText(alts[0].items)| <= |SeqText(alts[0])|;
      [Sequence(LocItems(alts[0].items, src, at + 1))] + LocMore(alts[1..], src, at + 1 + |SeqText(alts[0])|)
  }

  function LocProd(p: Prod, src: string, at: nat): Production
    requires at + |ProdText(p)| <= |src|
  {
    var i := at + |p.lead|;
    var body := i + |p.name| + |p.mid| + |DefText(p.colons)|;
    Production(p.name, LocAlts(p.alts, src, body), SpanAt(src, i, |p.name|))
  }

  function LocProds(ps: seq<Prod>, src: string, at: nat): (r: seq<Production>)
    requires at + |ProdsText(ps)| <= |src|
    ensures |r| == |ps|
  {
    if ps == [] then [] else [LocProd(ps[0], src, at)] + LocProds(ps[1..], src, at + |ProdText(ps[0])|)
  }
}
