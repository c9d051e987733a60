/** The body of a character class: its members in source order, folded into ranges. */
module CharClass {
  import opened Text
  import opened Grammar

  const MAX_CODE_POINT := 0x10FFFF
  const MAX_INT64 := 0x7FFF_FFFF_FFFF_FFFF

  const SURROGATE_LO := 0xD800
  const SURROGATE_HI := 0xDFFF

  /** Half of a surrogate pair, which names no character. */
  predicate Surrogate(cp: nat) {
    SURROGATE_LO <= cp <= SURROGATE_HI
  }

  /** What a character class or a code point may be refused for. */
  datatype CharFault = NoHexDigits | NotACodePoint | AboveMaximum | ReversedRange

  datatype Checked<+T> = Fine(value: T) | Refused(fault: CharFault)

  /** A code point from its digits; past 64 bits the number itself cannot be read. */
  function CodePoint(digits: string): (r: Checked<nat>)
    requires All(HexDigits, digits)
    ensures r.Fine? <==> HexValue(digits) <= 0x10_FFFF
    ensures r.Fine? ==> r.value == HexValue(digits)
    ensures r.Refused? ==> (r.fault == NotACodePoint <==> HexValue(digits) >= 0x8000_0000_0000_0000)
    ensures r.Refused? ==> (r.fault == AboveMaximum <==> HexValue(digits) < 0x8000_0000_0000_0000)
  {
    var n := HexValue(digits);
    if n > MAX_INT64 then Refused(NotACodePoint)
    else if n > MAX_CODE_POINT then Refused(AboveMaximum)
    else Fine(n)
  }

  /** A member as it is read: a hyphen is a mark until the fold decides what it is. */
  datatype Member = Hyphen | Point(cp: nat)

  function MemberOf(c: char): Member {
    if c == '-' then Hyphen else Point(c as int)
  }

  function Members(body: string): Checked<seq<Member>> {
    if body == "" then Fine([])
    else if !Begins(body, '#', 'x') then Then(MemberOf(body[0]), Members(body[1..]))
    else
      var t := body[2..];
      var n := Run(HexDigits, t);
      if n == 0 then Refused(NoHexDigits)
      else
        match CodePoint(t[..n])
        case Refused(f) => Refused(f)
        case Fine(cp) => Then(Point(cp), Members(t[n..]))
  }

  lemma MembersOne(body: string)
    requires body != "" && !Begins(body, '#', 'x')
    ensures Members(body) == Then(MemberOf(body[0]), Members(body[1..]))
  {
  }

  lemma MembersCode(body: string, t: string, n: nat)
    requires Begins(body, '#', 'x') && t == body[2..] && n == Run(HexDigits, t)
    ensures Members(body) == if n == 0 then Refused(NoHexDigits)
                             else match CodePoint(t[..n])
                                  case Refused(f) => Refused(f)
                                  case Fine(cp) => Then(Point(cp), Members(t[n..]))
  {
  }

  function Then<T>(x: T, r: Checked<seq<T>>): Checked<seq<T>> {
    match r
    case Fine(xs) => Fine([x] + xs)
    case Refused(f) => Refused(f)
  }

  /** Whether a range begins a list of members: two code points with a hyphen between them. */
  predicate RangeFirst(ms: seq<Member>) {
    |ms| > 2 && ms[0].Point? && ms[1].Hyphen? && ms[2].Point?
  }

  /** Ranges from `lo - hi` triples; any other hyphen is a literal one. */
  function Fold(ms: seq<Member>): Checked<seq<Part>> {
    if ms == [] then Fine([])
    else if ms[0].Hyphen? then Then(Part(0x2D, 0x2D), Fold(ms[1..]))
    else if RangeFirst(ms) then
      if ms[2].cp < ms[0].cp then Refused(ReversedRange)
      else Then(Part(ms[0].cp, ms[2].cp), Fold(ms[3..]))
    else Then(Part(ms[0].cp, ms[0].cp), Fold(ms[1..]))
  }

  function Parts(body: string): Checked<seq<Part>> {
    match Members(body)
    case Refused(f) => Refused(f)
    case Fine(ms) => Fold(ms)
  }

  // ---- what a class means

  predicate InPart(p: Part, cp: nat) {
    p.lo <= cp <= p.hi
  }

  ghost predicate InParts(ps: seq<Part>, cp: nat) {
    exists p :: p in ps && InPart(p, cp)
  }

  /** Whether a class of these parts, negated or not, matches a code point. */
  ghost predicate Matches(negated: bool, parts: seq<Part>, cp: nat) {
    negated != InParts(parts, cp)
  }

  predicate Ordered(p: Part) {
    p.lo <= p.hi <= MAX_CODE_POINT
  }
}
