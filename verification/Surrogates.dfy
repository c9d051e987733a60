/**
 The Rust front-end's classes: a Rust string holds no half of a surrogate pair, so such code points are
 taken off the ends of a class's ranges. What the class matches stays as written, but for one case.
 */
module Surrogates {
  import opened Wrappers
  import opened Grammar
  import opened CharClass

  const REPLACEMENT := 0xFFFD

  /** A code point that is a character. */
  predicate Scalar(cp: nat) {
    cp < 0xD800 || 0xDFFF < cp <= 0x10_FFFF
  }

  function TrimPart(p: Part): Option<Part> {
    var lo := if Surrogate(p.lo) then SURROGATE_HI + 1 else p.lo;
    var hi := if Surrogate(p.hi) then SURROGATE_LO - 1 else p.hi;
    if lo <= hi then Some(Part(lo, hi)) else None
  }

  function Trimmed(parts: seq<Part>): seq<Part> {
    if parts == [] then []
    else
      var rest := Trimmed(parts[1..]);
      match TrimPart(parts[0])
      case None => rest
      case Some(p) => [p] + rest
  }

  datatype RustClass = RustClass(negated: bool, parts: seq<Part>)

  /** The class the front-end emits: every character for a negated class of nothing, U+FFFD for one of nothing. */
  function Emitted(negated: bool, parts: seq<Part>): RustClass {
    var kept := Trimmed(parts);
    if kept != [] then RustClass(negated, kept)
    else if negated then RustClass(false, [Part(0, MAX_CODE_POINT)])
    else RustClass(false, [Part(REPLACEMENT, REPLACEMENT)])
  }

  lemma TrimPartKeeps(p: Part, cp: nat)
    requires Scalar(cp)
    ensures TrimPart(p).Some? && InPart(TrimPart(p).value, cp) <==> InPart(p, cp)
  {
  }

  lemma {:induction false} TrimKeeps(parts: seq<Part>, cp: nat)
    requires Scalar(cp)
    ensures InParts(Trimmed(parts), cp) <==> InParts(parts, cp)
  {
    if parts != [] {
      TrimPartKeeps(parts[0], cp);
      TrimKeeps(parts[1..], cp);
      assert InParts(parts, cp) <==> InPart(parts[0], cp) || InParts(parts[1..], cp);
      if TrimPart(parts[0]).Some? {
        var p, rest := TrimPart(parts[0]).value, Trimmed(parts[1..]);
        assert InParts([p] + rest, cp) <==> InPart(p, cp) || InParts(rest, cp);
      }
    }
  }

  lemma {:induction false} TrimmedEnds(parts: seq<Part>, p: Part)
    requires forall q | q in parts :: Ordered(q)
    requires p in Trimmed(parts)
    ensures Scalar(p.lo) && Scalar(p.hi) && p.lo <= p.hi
  {
    assert Ordered(parts[0]);
    if TrimPart(parts[0]) != Some(p) { TrimmedEnds(parts[1..], p); }
  }

  /** Every end of an emitted range is a character, in order. */
  lemma EmittedEnds(negated: bool, parts: seq<Part>, p: Part)
    requires forall q | q in parts :: Ordered(q)
    requires p in Emitted(negated, parts).parts
    ensures Scalar(p.lo) && Scalar(p.hi) && p.lo <= p.hi
  {
    if Trimmed(parts) != [] { TrimmedEnds(parts, p); }
  }

  /** A class is of nothing exactly when no character is in it as written. */
  lemma TrimmedEmpty(parts: seq<Part>)
    requires forall q | q in parts :: Ordered(q)
    ensures Trimmed(parts) == [] <==> forall cp: nat | Scalar(cp) :: !InParts(parts, cp)
  {
    forall cp: nat | Scalar(cp) ensures InParts(Trimmed(parts), cp) <==> InParts(parts, cp) { TrimKeeps(parts, cp); }
    if Trimmed(parts) != [] {
      var p := Trimmed(parts)[0];
      TrimmedEnds(parts, p);
      assert InPart(p, p.lo) && InParts(Trimmed(parts), p.lo);
    }
  }

  /**
   The emitted class matches the characters the written one matches exactly when the class is negated or
   some character is in it; a class of nothing but surrogates is the one exception, and matches U+FFFD.
   */
  lemma EmittedMeans(negated: bool, parts: seq<Part>)
    requires forall q | q in parts :: Ordered(q)
    ensures var c := Emitted(negated, parts);
            (forall cp: nat | Scalar(cp) :: Matches(c.negated, c.parts, cp) <==> Matches(negated, parts, cp))
            <==> (negated || exists cp: nat :: Scalar(cp) && InParts(parts, cp))
    ensures !negated && Trimmed(parts) == [] ==>
              forall cp: nat | Scalar(cp) :: Matches(Emitted(false, parts).negated, Emitted(false, parts).parts, cp)
                                             <==> cp == 0xFFFD
  {
    var c := Emitted(negated, parts);
    TrimmedEmpty(parts);
    forall cp: nat | Scalar(cp)
      ensures Trimmed(parts) != [] ==> (Matches(c.negated, c.parts, cp) <==> Matches(negated, parts, cp))
      ensures InParts([Part(0, MAX_CODE_POINT)], cp)
      ensures InParts([Part(REPLACEMENT, REPLACEMENT)], cp) <==> cp == REPLACEMENT
    {
      TrimKeeps(parts, cp);
      assert InPart([Part(0, MAX_CODE_POINT)][0], cp);
      assert InPart([Part(REPLACEMENT, REPLACEMENT)][0], cp) <==> cp == REPLACEMENT;
    }
    assert Scalar(REPLACEMENT);
  }
}
