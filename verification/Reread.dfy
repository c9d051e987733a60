/** The scanner started afresh on the text of one span. */
module Reread {
  import opened Grammar
  import opened Reader
  import opened Scanner
  import opened Shift
  import opened Spans
  import opened Syntax

  /** It reads the text to its end, and the element it builds is the one the span belongs to, up to the shift. */
  method Reparse(src: string, sp: Span, e: Element) returns (r: Outcome<Element>, read: nat)
    requires Exact(sp, e, src)
    ensures Counted(Start(sp)) && read == sp.e - sp.s && r.Ok? && Moved(r.value, Start(sp)) == e
  {
    hide ReadAtom, Skip, Moved, LocAtom, AtomText, Spells, LineAt, ColAt;
    ExactReads(sp, e, src);
    var t := src[sp.s..sp.e];
    var scanner := new Scanner(t);
    r := scanner.ParseAtom();
    read := scanner.i;
  }
}
