/**
 The text layer of the render: the elements a compiled rule is read back to, written as W3C EBNF, each
 with the level it stands at, so that nothing is written nested deeper than the reader takes.
 */
module Render {
  import opened Wrappers
  import opened Text
  import opened ClassWriter
  import opened Literals

  /** The levels the reader takes: the shared compiler's limit. */
  const MAX_DEPTH := 128

  /** A terminal, or a name: a rule's, a lifted token's or the engine's own. */
  datatype Leaf =
    | Literal(text: string, cs: bool)
    | ClassOf(negated: bool, ranges: seq<Range>)
    | AnyChar
    | Named(name: string)

  /** An element as a rule's alternative holds it once its helpers are read. */
  datatype Part =
    | Tok(leaf: Leaf)
    | Star(item: Part)
    | Plus(item: Part)
    | Opt(item: Part)
    | Rep(item: Part, min: nat, max: Option<nat>)
    | Group(alts: seq<Alt>)
    | Tail(rest: Alt)
    | Grp(held: Alt)

  datatype Alt = Alt(els: seq<Part>)

  datatype Rule = Rule(name: string, alts: seq<Alt>)

  /** A text, or a refusal: an element past the limit, or one W3C EBNF has no spelling for. */
  datatype Written = Text(text: string) | Refused(why: Reason)

  datatype Reason = TooDeep(level: nat) | NoSpelling

  /** Texts one after another, up to the first refusal. */
  function Glue(a: Written, sep: string, b: Written): Written {
    if a.Refused? then a else if b.Refused? then b else Text(a.text + sep + b.text)
  }

  function Around(before: string, w: Written, behind: string): Written {
    if w.Refused? then w else Text(before + w.text + behind)
  }

  function GlueAll(ws: seq<Written>, sep: string): Written {
    if ws == [] then Text("") else if |ws| == 1 then ws[0] else Glue(ws[0], sep, GlueAll(ws[1..], sep))
  }

  function LeafText(l: Leaf): Option<string> {
    match l
    case Literal(t, cs) => LitText(t, cs)
    case ClassOf(neg, rs) => Some(ClassText(PatternText(neg, rs)))
    case AnyChar => Some(ClassText("[\\s\\S]"))
    case Named(n) => if ValidName(n) then Some(n) else None
  }

  /** A terminal or a name at its level; one past the limit refuses its rule. */
  function LeafAt(at: nat, l: Leaf): Written {
    match LeafText(l)
    case None => Refused(NoSpelling)
    case Some(t) => if at > MAX_DEPTH then Refused(TooDeep(at)) else Text(t)
  }

  // ---- counted repetitions

  function Repeat(n: nat, s: string): (r: string) {
    if n == 0 then "" else s + Repeat(n - 1, s)
  }

  /** How many nested options a repetition is written as. */
  function Options(min: nat, max: Option<nat>): nat {
    match max
    case None => 0
    case Some(m) => if m > min then m - min else 0
  }

  /** The level of a repetition's deepest copy of its item. */
  function RepDepth(at: nat, opts: nat, max: Option<nat>): nat {
    if max.None? then at + 1 else if opts == 0 then at else at + opts + (opts - 1)
  }

  /** The nested options over an item, the innermost over the item alone. */
  function OptionsText(atom: string, n: nat): string
    requires n > 0
  {
    Repeat(n - 1, "( " + atom + " ") + atom + "?" + Repeat(n - 1, " )?")
  }

  /** A repetition's copies of its item, and its loop or its nested options. */
  function CopiesText(atom: string, min: nat, max: Option<nat>): string
    requires min > 0 || max != Some(0)
  {
    var opts := Options(min, max);
    var lead := Copies(min, atom);
    if max.None? then lead + atom + "*"
    else if opts > 0 then lead + OptionsText(atom, opts)
    else lead[..|lead| - 1]
  }

  /** A text so many times, a blank behind each. */
  function Copies(n: nat, atom: string): (r: string)
    ensures n > 0 ==> |r| > 0
  {
    if n == 0 then "" else atom + " " + Copies(n - 1, atom)
  }

  // ---- elements

  /** The element a postfix applies to; a repetition, which takes more than one item, in a group. */
  function AtomAt(at: nat, p: Part): Written
    decreases p, 1
  {
    if p.Rep? then Around("( ", PartAt(at + 1, p), " )") else PartAt(at, p)
  }

  function PartAt(at: nat, p: Part): Written
    decreases p, 0
  {
    match p
    case Tok(l) => LeafAt(at, l)
    case Star(i) => Around("", AtomAt(at + 1, i), "*")
    case Plus(i) => Around("", AtomAt(at + 1, i), "+")
    case Opt(i) => Around("", AtomAt(at + 1, i), "?")
    case Rep(i, min, max) =>
      if min == 0 && max == Some(0) then Refused(NoSpelling)
      else
        var opts := Options(min, max);
        var deep := RepDepth(at, opts, max);
        if opts > 0 && deep > MAX_DEPTH then Refused(TooDeep(deep))
        else
          (match AtomAt(deep, i)
           case Refused(why) => Refused(why)
           case Text(atom) => Text(CopiesText(atom, min, max)))
    case Group(alts) => Around("( ", AltsAt(at + 1, alts), " )")
    case Tail(q) => Around("( ", OneAltAt(at + 2, q), " )?")
    case Grp(q) => Around("( ", OneAltAt(at + 1, q), " )")
  }

  function AltAt(at: nat, els: seq<Part>): Written
    requires els != []
    decreases els
  {
    if |els| == 1 then PartAt(at, els[0]) else Glue(PartAt(at, els[0]), " ", AltAt(at, els[1..]))
  }

  /** A factored alternative, which a group holds alone. */
  function OneAltAt(at: nat, q: Alt): Written
    decreases q
  {
    if q.els == [] then Refused(NoSpelling) else AltAt(at, q.els)
  }

  /** The alternatives that hold an element, each at its level. */
  function FilledAt(at: nat, alts: seq<Alt>): seq<Written>
    decreases alts, 0
  {
    if alts == [] then []
    else (if alts[0].els == [] then [] else [AltAt(at, alts[0].els)]) + FilledAt(at, alts[1..])
  }

  /** Whether every alternative holds an element. */
  predicate AllFilled(alts: seq<Alt>) {
    alts == [] || (alts[0].els != [] && AllFilled(alts[1..]))
  }

  predicate SomeFilled(alts: seq<Alt>) {
    alts != [] && (alts[0].els != [] || SomeFilled(alts[1..]))
  }

  /** Alternatives with bars between them; where one is empty, the others made optional two levels deeper. */
  function AltsAt(at: nat, alts: seq<Alt>): Written
    decreases alts, 1
  {
    if !SomeFilled(alts) then Refused(NoSpelling)
    else if AllFilled(alts) then GlueAll(FilledAt(at, alts), " | ")
    else Around("( ", GlueAll(FilledAt(at + 2, alts), " | "), " )?")
  }

  // ---- the file

  function RuleText(r: Rule): Written {
    if !ValidName(r.name) then Refused(NoSpelling) else Around(r.name + " ::= ", AltsAt(1, r.alts), "")
  }

  function RuleTexts(rs: seq<Rule>): seq<Written> {
    if rs == [] then [] else [RuleText(rs[0])] + RuleTexts(rs[1..])
  }

  function FileAt(rs: seq<Rule>): Written {
    Around("", GlueAll(RuleTexts(rs), "\n"), "\n")
  }
}
