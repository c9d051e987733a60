# The EBNF front-end, verified

A Dafny model of a grammar notation (W3C EBNF, section 6 of XML 1.0, with four ISO/IEC 14977 spellings), of the
parser that reads it, of the printer that writes it, and of the analyses between them; and of the C library that
serves the parser. What is proved is what the parts promise one another: that reading loses nothing, that layout
does not matter, that every span is its node's text, that what the printer writes is read back as the grammar it
was written from, that it is refused for depth exactly when it is too deep, and that each analysis decides what
its name says.

## How it is laid out

- **Text, syntax, reading.** `Text` and `Strings` hold the work on characters. `Grammar` is the grammar IR;
  `Syntax` is the concrete syntax, every character of a source filed under its construct, with the IR and the
  spans it stands for. `Reader` says what the Go reader accepts, as functions from the unread text. `Scanner` is the
  Go reader itself, a class that walks the source and keeps its line and column; each of its methods is proved
  equal to `Reader` (`Steps` holds the laws its loops step by). `CharClass` is the body of a character class.
- **What is read.** `Gaps`: blanks and comments. `Lexemes`: the atoms, and every fault with its place.
  `ClassGroups`: a class body, grouped from the left. These say in the notation's own terms what `Reader` computes.
- **Laws of reading.** `Legal` and `RoundTrip`: reading and flattening are inverse, and exactly on which texts.
  `Layout`: the accepted texts are the spaced layouts, a property that looks at two neighbours at a time.
  `Tokens`: the tokens alone settle the grammar, whatever their layout. `Spans`: every span is exactly its node's
  text; `Shift` and `Reread`: that text, read afresh, gives the node back, every span in it moved along.
- **Checks.** `Nullable`: the rules that derive the empty string, against explicit derivation trees, and the check
  on ambiguous choices. `FrontEnd`: the whole of `ParseEbnf`.
- **Writing.** `ClassWriter`, `ClassPattern`, `ClassName`: a class as text, as the pattern it is compiled to, as the
  name of its token. `Literals`: a literal as one terminal. `Render`: the text layer with its levels.
  `RenderSyntax`, `RenderText`, `RenderDepth`, `RenderRoundTrip`, `GrammarRoundTrip`: what it writes is source
  the front-end reads back. `Words`, `RenderMeaning`: and it stands for the same words.
- **Character sets.** `Ranges` and `TokenSets`: ranges sorted, merged, compared and put together with their
  complement. `Surrogates`: the Rust front-end's trimming. `RankSort`: sorting by counting.
- **Rewriting in the render.** `NumberOrder`: alternatives put back in the order of their helpers' numbers.
  `References`, `WrittenBack`: references written back over runs of alternatives, alternatives being known by their keys; that
  accepted runs stay apart, and that only positions they go over drop out, is close to how they are defined
  (`AcceptedApart`, `DroppedIffCovered`).
- **Depth in the Rust reader.** `DepthRegisters`: the two registers, as the actions fire on a tree.
- **The C library.** `ValueWalk`: the walk over a possibly cyclic value. `Registry`: the handle registry under
  every interleaving of its callers.

Characters are code points. A class is compared by its negation and its list of ranges, since each front-end
spells the pattern in its own way. Where the code and its comments differ the model follows the code.

What turned out to hold only under a condition:

- Every lookup after a free fails, however the run goes on, exactly when the handle had been issued or is not
  positive (`Registry.FreeIsFinalIff`). A free of a positive handle that is still to be issued is lost: from there
  the run can go on until a lookup finds a parser under that handle (`Registry.FreeAheadIsLost`).
- A class's name gives the class back exactly when its digits are in lower case (`ClassName.NameRoundTrip`); the
  patterns the front-ends compile have them so, and come back (`ClassName.CompiledRoundTrip`).
- Trimming surrogates keeps what a class matches exactly when the class is negated or holds a character
  (`Surrogates.EmittedMeans`); otherwise it comes to match U+FFFD alone.
- A written class is read back exactly when the ends of its ranges are code points in order
  (`ClassWriter.WrittenClassIsRead`).

## Model

| member | source | states |
|---|---|---|
| CharClass.CodePoint | go/parser_ebnf.go:197-209 | digits denote a code point exactly when their value is at most 10FFFF, and then denote that value; a number past 64 bits is no number, any other that is refused is above the maximum |
| Reader.Skip | go/parser_ebnf.go:165-191 | a gap is skipped to its end and no further, and nothing is lost: it and the rest are the text |
| Gaps.GapIffPieces | go/parser_ebnf.go:165-191 | a gap is blanks and comments, one after another; a comment runs from `/*` or `(*` to the first `*/` or `*)` of its own |
| Gaps.SkipsPieces | go/parser_ebnf.go:167-187 | before a text that begins none, all of these are skipped and nothing more |
| Gaps.FaultsUnclosed | go/parser_ebnf.go:172-187 | behind any of these a comment that nothing closes is the fault, at its opening |
| Gaps.EveryTextBegins | go/parser_ebnf.go:165-191 | and every text is one of the two |
| Reader.ReadAtom | go/parser_ebnf.go:402-527 | an atom read and the text left are the text; every fault is placed inside it |
| Lexemes.ReadIffLexeme | go/parser_ebnf.go:414-527 | a name, literal, code point or class is read, with a text behind it, exactly when its characters, by number, are the ones it may have and the text does not go on with it |
| Lexemes.HexNames | go/parser_ebnf.go:479-502 | a code point is the one character of that number, or U+FFFD for half of a surrogate pair |
| Lexemes.QuotedFaults | go/parser_ebnf.go:416-443 | a literal that is not ended, holds a control character or holds nothing is refused, each at its place |
| Lexemes.ClassFaults | go/parser_ebnf.go:233-256 | a class not closed on its line, an empty one and one with a bad body likewise |
| Lexemes.HexFaults | go/parser_ebnf.go:479-495 | and a code point without `x`, without digits or past the maximum |
| Lexemes.OtherNotations | go/parser_ebnf.go:504-512 | what begins a construct of another notation is refused by that construct's name |
| Lexemes.NothingBegins | go/parser_ebnf.go:406-408 | the end of the text, or a character that begins nothing, is refused where it stands |
| Lexemes.NameFaults | go/parser_ebnf.go:514-526 | a run of name characters that begins as no name may is refused behind it |
| Lexemes.PlaceFaults | go/parser_ebnf.go:597-628 | an empty alternative, a leading and a trailing comma are refused, each at its place |
| Lexemes.GroupFaults | go/parser_ebnf.go:459-471 | a group with no parenthesis where its alternatives end is refused there |
| Lexemes.RuleFaults | go/parser_ebnf.go:660-697 | a rule without a name, and a name without a definition, are refused where each should stand |
| Lexemes.RuleStartsIff | go/parser_ebnf.go:578-591 | a rule begins here exactly when a run of name characters, a gap, and `::=` or a single `=` do |
| Reader.ReadSeq | go/parser_ebnf.go:597-628 | a concatenation read and the text left are the text; it ends where one ends, and holds an element where it must |
| Reader.ReadAlts | go/parser_ebnf.go:631-648 | alternatives read and the text left are the text |
| Reader.ReadFile | go/parser_ebnf.go:652-719 | a file that is read is all of the text, character for character |
| Scanner.Scanner.Advance | go/parser_ebnf.go:79-89 | the line and column agree with the offset in every state the scanner reaches; it never passes the end |
| Scanner.Scanner.SkipSpace | go/parser_ebnf.go:165-191 | the loop over whitespace and both comment syntaxes stops where the longest gap ends, or at the comment that never closes |
| Scanner.MembersOf | go/parser_ebnf.go:259-290 | the scan over a class body gives its members in order, or the fault of the first bad code point |
| Scanner.FoldMembers | go/parser_ebnf.go:292-314 | the fold over members gives their ranges, a hyphen not between two code points being literal |
| ClassGroups.Grouped | go/parser_ebnf.go:292-314 | the members of a class are grouped from the left into ranges and single members |
| ClassGroups.GroupedOnce | go/parser_ebnf.go:292-314 | in one way only |
| ClassGroups.FoldIsGroups | go/parser_ebnf.go:292-314 | the class is refused exactly when a range is reversed; otherwise its parts are the groups' own code points in order, a hyphen by itself being 2D |
| ClassGroups.PlainBodyMatches | go/parser_ebnf.go:258-314 | a body of characters matches a code point exactly when one of its groups covers it |
| ClassGroups.HyphenMatches | go/parser_ebnf.go:280-296 | and the hyphen exactly when one stands in no range, or a range goes over it |
| Scanner.Scanner.ParseCharClass | go/parser_ebnf.go:233-330 | a class is read with its negation, ranges and span as specified, or with the specified fault at its place |
| Scanner.Scanner.ParseString | go/parser_ebnf.go:416-455 | a literal is read to its own quote; a control character, an empty body and a missing quote are placed faults |
| Scanner.Scanner.ParseHex | go/parser_ebnf.go:479-502 | a standalone code point is read as the character it names |
| Scanner.Scanner.ParseAtom | go/parser_ebnf.go:402-527 | each kind of atom is taken by its first character, with the span from the atom's start to its end |
| Scanner.Scanner.ParseGroup | go/parser_ebnf.go:459-478 | a group is its alternatives between parentheses, its span both parentheses |
| Scanner.Scanner.ParseElem | go/parser_ebnf.go:543-566 | postfix operators that touch the atom wrap it left to right; one after a gap does not |
| Steps.WrapMore | go/parser_ebnf.go:548-565 | the last operator of a run is the outermost |
| Scanner.Scanner.AtSeqEnd | go/parser_ebnf.go:570-592 | looks ahead for the end of a concatenation and puts offset, line and column back |
| Scanner.Scanner.ParseSeq | go/parser_ebnf.go:597-628 | items with optional commas between them, each located; an empty, leading or trailing place is a placed fault |
| Scanner.Scanner.ParseAlts | go/parser_ebnf.go:631-648 | one or more concatenations with bars between them |
| Scanner.Scanner.ParseProd | go/parser_ebnf.go:660-713 | a rule's name, its span, its definition sign and its alternatives, or the fault at its place |
| Scanner.Scanner.ParseProds | go/parser_ebnf.go:652-719 | the whole reader, loop by loop, equals the specified reading of the source |
| RoundTrip.AcceptedTexts | go/parser_ebnf.go:402-719 | a text is read as a file exactly when the file is legal and its characters are the text |
| Layout.SpacedIsRead | go/parser_ebnf.go:165-191 | whatever the gaps, comments, commas, definition signs and terminators, a file's text is read back as it exactly when no two tokens of it run together |
| Tokens.ProdsOnce | go/parser_ebnf.go:543-719 | rules that flatten to one list of tokens are one grammar: tokens are parsed in one way |
| Tokens.LayoutDoesNotMatter | go/parser_ebnf.go:165-191 | two accepted texts with the same tokens, gaps, comments, commas, definition signs and terminators aside, are read as one grammar |
| Tokens.LaidOutAnew | go/parser_ebnf.go:570-647 | and however such tokens are laid out with no two running together, the text is accepted |
| Layout.AcceptedLayouts | go/parser_ebnf.go:685-706 | the accepted texts are the texts of spaced layouts, no others |
| Spans.SpansAreExact | go/parser_ebnf.go:120-134 | every span is its node's text with its own line and column; siblings are ordered and apart, children inside their group, rules one after another |
| Spans.ExactReads | go/parser_ebnf.go:402-527 | the text of a span, read by itself to its end, is its element: moved by the span's offset and line, and on the first line by its column, every span in it is the one in the source |
| Reread.Reparse | go/parser_ebnf.go:402-527 | the scanner started afresh on that text reads all of it and builds that element up to the shift |
| Shift.AtomMoves | go/parser_ebnf.go:120-134 | an atom located in a stretch of the source and moved is the atom located in the source |
| Shift.LinesAre | go/parser_ebnf.go:79-89 | a line is one more than the line feeds before it |
| Shift.ColumnsAre | go/parser_ebnf.go:79-89 | a column is one more than the characters behind the last of them |
| FrontEnd.CheckDuplicates | go/parser_ebnf.go:723-735 | the first name defined twice, exactly when there is one |
| FrontEnd.ParseEbnf | go/parser_ebnf.go:652-719 | a source is accepted exactly when it is well formed, holds a rule, defines no name twice and has no ambiguous choice; faults come in that order |
| FrontEnd.UnambiguousBare | go/parser_ebnf.go:803-860 | the check on choices does not see spans: with them and without them it decides the same |
| FrontEnd.DistinctBare | go/parser_ebnf.go:723-735 | nor does the check on names |
| FrontEnd.AcceptableBare | go/parser_ebnf.go:652-719 | acceptance is a matter of the grammar alone, once the source is read |
| Nullable.NullableRules | go/parser_ebnf.go:783-801 | the loop ends, and a rule is in its result exactly when it has a finite derivation of the empty string |
| Nullable.FixedPointDecides | go/parser_ebnf.go:743-777 | on a sound and closed set the recursion over an element decides whether it derives the empty string |
| Nullable.OrderDoesNotMatter | ts/src/converter.ts:1058-1072 | what derives the empty string does not depend on the order or number of the productions' listings |
| Nullable.CheckGroups | go/parser_ebnf.go:803-860 | a complaint about an element's groups is given exactly when some group at some depth has two empty alternatives |
| Nullable.CheckNullableAlts | go/parser_ebnf.go:803-860 | the grammar is refused exactly when a rule or a group at any depth has two alternatives that derive the empty string |
| Nullable.ComplaintIsAmbiguous | go/parser_ebnf.go:813-822 | a complaint names the first rule at fault and counts the alternatives of a choice of its that derive the empty string |
| Nullable.CountDecides | rs/src/converter.rs:234-294 | counting empty alternatives decides whether two different ones derive the empty string |
| Nullable.TwoDerivations | rs/src/converter.rs:234-294 | a refused choice really has two different derivation trees of the empty string |
| ClassWriter.CodeDigitsValue | alchemy/render.alc:1596-1609 | digits in capitals without leading zeros are the same number's |
| ClassWriter.CodeDigitsForm | alchemy/render.alc:1594-1602 | in capitals, with no zero before them |
| ClassWriter.PlainIff | alchemy/render.alc:1705-1722 | a printable character stands for itself but for `]`, `[`, `-`, `^`, `#` and `\`; any other is a code point |
| ClassWriter.PatternPieces | alchemy/render.alc:1771-1785 | cut at its brackets, its caret and each escape, a pattern gives its members' pieces |
| ClassWriter.MemberIsRead | alchemy/render.alc:1705-1731 | a member is read back as its code point, as long as no digit follows a code |
| ClassWriter.MembersTextIsRead | alchemy/render.alc:1747-1765 | no code point's digits run into the next member, whatever the members |
| ClassWriter.WrittenClassIsRead | alchemy/render.alc:1771-1785 | the text of a class is read with its negation and exactly its list of ranges, if and only if their ends are code points in order |
| ClassWriter.AnyIsRead | alchemy/render.alc:1773-1773 | the pattern of every character is written as the class of every code point |
| ClassPattern.ClassRoundTrip | ts/src/converter.ts:727-738 | a class compiled to its pattern, written and read again is the same class |
| ClassPattern.AstralIff | ts/src/converter.ts:649-725 | a pattern is braced exactly when its parts hold a code point past FFFF |
| ClassName.NameIsMapped | alchemy/render.alc:793-806 | the chain of replacements that names a class changes each character once, and takes at most two underscores off the end |
| ClassName.NameIsRead | alchemy/render.alc:759-788 | the class read back from a class's name is that class, its digits in lower case, with the flags its pattern calls for |
| ClassName.NameRoundTrip | alchemy/render.alc:773-788 | the name gives the very pattern back if and only if its digits are in lower case |
| ClassName.CompiledRoundTrip | alchemy/render.alc:759-806 | every class a front-end compiles comes back from its name, with the flag its pattern needs |
| ClassName.CompiledNamesDiffer | alchemy/render.alc:793-806 | and two such classes have one name exactly when they are one class |
| ClassName.NamesDiffer | alchemy/render.alc:793-806 | two classes share a name exactly when they are one class but for the case of digits |
| ClassName.AnyNameRoundTrip | alchemy/render.alc:773-777 | the class of every character comes back from its name |
| RankSort.RankOrders | alchemy/render.alc:913-915 | one place counts fewer before it than another exactly when it comes before it |
| RankSort.NthOrders | alchemy/render.alc:913-915 | places picked by rank come in order, ties as they stood |
| NumberOrder.ReorderedIsPermutation | alchemy/render.alc:1102-1114 | reordering keeps every alternative, as often as it stands |
| NumberOrder.ReorderedKeeps | alchemy/render.alc:1086-1114 | an alternative that ends in no numbered helper keeps its place, and only numbered ones fill the others |
| NumberOrder.ReorderedIsSorted | alchemy/render.alc:1102-1114 | numbered alternatives come in the order of their numbers, ties as they stood |
| NumberOrder.OrderedIsKept | alchemy/render.alc:1102-1114 | alternatives already in order are left as they are |
| NumberOrder.AltNumberIs | alchemy/render.alc:1086-1100 | an alternative that ends in a reference to `_gen`, a number as it is printed, and nothing or an underscore and more, has that number |
| NumberOrder.NumberRead | alchemy/render.alc:1086-1100 | and the number of any other digits in that place |
| NumberOrder.DigitsAre | alchemy/render.alc:1086-1100 | which are zeros and a number as it is printed |
| NumberOrder.NoNumberIff | alchemy/render.alc:1086-1100 | it has none exactly when it ends in no such reference |
| Ranges.CpIsNumeric | alchemy/render.alc:831-857 | three bytes compared from the highest, and stepped with carry, are the number compared and stepped |
| Ranges.CpOfValue | alchemy/render.alc:813-829 | digits padded and cut in pairs are the bytes of the number they denote |
| Ranges.PrecedesByBytes | alchemy/render.alc:913-915 | the ranks count low ends byte by byte, and places where those are the same |
| Ranges.MergedIs | alchemy/render.alc:898-911 | merging keeps the set of code points and leaves ranges in order that neither overlap nor meet |
| Ranges.CanonicalIsUnique | alchemy/render.alc:895-897 | a set of code points has one such form |
| Ranges.SameIffSets | alchemy/render.alc:917-920 | merged lists are the same exactly when the sets are |
| Ranges.TileIffPartition | alchemy/render.alc:922-933 | two lists tile exactly when every code point is in one of them and none in both |
| TokenSets.SpansOfPattern | alchemy/render.alc:871-891 | the ranges cut out of a pattern's text are the ones written into it |
| TokenSets.PatternHolds | alchemy/render.alc:893-894 | and hold the code points of the parts the class was folded to |
| TokenSets.CheckSetIsExact | alchemy/render.alc:979-993 | a token set is accepted exactly when its tokens match the code points its class matches, negated or not |
| TokenSets.AnySetIsExact | alchemy/render.alc:979-993 | the set of every character is accepted exactly when its tokens match every one |
| Surrogates.TrimKeeps | rs/src/classes.rs:218-246 | trimming changes no character's membership |
| Surrogates.EmittedEnds | rs/src/classes.rs:218-269 | every end of an emitted range is a character, and the ends are in order |
| Surrogates.EmittedMeans | rs/src/classes.rs:246-269 | the emitted class matches what the written one does exactly when it is negated or holds a character; a class of surrogates alone comes to match U+FFFD |
| Literals.WrittenIffOneTerminal | alchemy/render.alc:1629-1698 | a literal is written exactly when one terminal spells it: one character, or no control character, not both quotes and, if its case does not matter, no letter |
| Literals.LitIsRead | alchemy/render.alc:1692-1698 | and is read back as that terminal: its text, its code point, or the class of a letter's two cases |
| Literals.ImageMatches | alchemy/render.alc:1629-1698 | that terminal matches the texts the literal does: its own, or with either case of its letters where case does not matter |
| RenderSyntax.LeafIsRead | alchemy/render.alc:1822-1831 | a terminal or a name is written exactly when it has a spelling, and read back as what it is |
| RenderText.OptionsWritten | alchemy/render.alc:1931-1936 | n parentheses opened, the item and n closed are n options, one inside another |
| RenderText.RepWritten | alchemy/render.alc:1890-1896 | a counted repetition's text is its copies and then its loop or its options |
| RenderText.FileWritten | alchemy/render.alc:1941-2054 | what the text layer joins together, blank by blank, is the text of one concrete syntax |
| RenderDepth.RepImagesDepth | alchemy/render.alc:1915-1921 | the level worked out for a repetition's deepest copy is the one it is parsed at: at + 2n - 1 for n options |
| RenderDepth.PartVerdict | alchemy/render.alc:1850-1929 | a part that has a spelling is refused exactly when its parsed nesting from its level on would pass 128, and the level named is past it |
| RenderDepth.AltsVerdict | alchemy/render.alc:1979-2003 | the same of alternatives, two levels deeper where an empty one makes the others optional |
| RenderDepth.FileVerdict | alchemy/render.alc:1838-1844 | a file is written exactly when every rule has a spelling and nests at most 128 deep |
| RenderRoundTrip.RenderedIsRead | alchemy/render.alc:14-16 | what the render writes is read as the syntax it was written as, which stands for the elements it was given |
| RenderRoundTrip.RenderedFitsRegisters | alchemy/render.alc:1835-1844 | nor does the Rust reader's cap on depth refuse any of it |
| RenderMeaning.RepYields | alchemy/render.alc:1881-1896 | copies with a loop or nested options stand for exactly the words of the repetition's counts |
| RenderMeaning.MeaningKept | alchemy/render.alc:1941-1972 | a part stands for the same words as the element it is written as |
| RenderMeaning.SomeKept | alchemy/render.alc:1984-2003 | alternatives made optional stand for the same words as with their empty one |
| RenderMeaning.ChainDepthIsRight | alchemy/render.alc:1314-1338 | the number of the outermost option says how many options there are |
| GrammarRoundTrip.RenderedIffShallow | alchemy/render.alc:1838-1844 | a grammar EBNF can spell is written exactly when nothing in it nests past 128 |
| GrammarRoundTrip.GrammarRoundTrip | alchemy/render.alc:1941-2009 | written and read again a grammar is the same grammar, and the front-end takes the text exactly when the grammar has a rule, no two of one name and no ambiguous choice |
| GrammarRoundTrip.RulesRoundTrip | alchemy/render.alc:2008-2054 | the same of the elements the render holds, repetitions, tails and optional alternatives among them |
| References.PrefixIsThere | alchemy/render.alc:1526-1532 | joined keys agree exactly where the keys do |
| References.RunIsFollowed | alchemy/render.alc:1536-1544 | a candidate that matches is the run it stands over, each alternative followed by one same tail |
| References.LargestIsTaken | alchemy/render.alc:1552-1557 | of the candidates at a position the first with the most alternatives is taken |
| References.UnsubKeepsAlternatives | alchemy/render.alc:1564-1585 | substituting the references that were written gives the keys of the rule's alternatives again, the same ones in the same order |
| WrittenBack.RunIsWritten | alchemy/render.alc:1564-1585 | a candidate's alternatives under one tail, it being the first with the most there and no run going over that place, are written as its reference and tail in that place; a rule that would be that reference alone stays as it was |
| WrittenBack.WrittenIsRun | alchemy/render.alc:1552-1585 | and nothing else is: each reference written is such a run, each alternative kept begins none |
| WrittenBack.AcceptedIff | alchemy/render.alc:1536-1575 | the search accepts a place exactly when such a run stands there |
| WrittenBack.WrittenLength | alchemy/render.alc:1564-1585 | the rule is shorter by one less than its alternatives for each reference written |
| DepthRegisters.Context.AtomLp | rs/src/parser_ebnf.rs:896-921 | a group saves its level's maximum and starts from nothing; past 520 rule levels it is refused and both registers stay as they were |
| DepthRegisters.Context.AtomGroupClose | rs/src/parser_ebnf.rs:925-936 | a closing group puts the maximum back and is built one deeper than what it held; a refused one is not built, and the depth stays as it was |
| DepthRegisters.Context.Post | rs/src/parser_ebnf.rs:423-428 | a postfix operator is counted one deeper only if that is in bounds; refused, it leaves both registers and what is built as they were |
| DepthRegisters.Context.ItemBc | rs/src/parser_ebnf.rs:749-779 | a complete element raises its level's maximum to its own depth, and wrapping its operators around its atom builds nothing deeper than that |
| DepthRegisters.Context.Item | rs/src/parser_ebnf.rs:375-428 | the element built is the one written, the register is its true depth and the level's maximum counts it; it is refused exactly when its depth or its groups pass a cap, and refused or not nothing past the cap is built |
| DepthRegisters.Context.Atom | rs/src/parser_ebnf.rs:815-825 | an atom leaves the enclosing level's maximum as it found it |
| DepthRegisters.GroupCapIsSlack | rs/src/parser_ebnf.rs:66-75 | of what can be read, the cap on rule levels refuses nothing the cap on depth takes |
| DepthRegisters.GroupsFitIff | rs/src/parser_ebnf.rs:66-75 | the cap on rule levels leaves room for 129 groups, one inside another |
| DepthRegisters.CheckRules | rs/src/parser_ebnf.rs:375-414 | rules are refused exactly when some element nests past 130, and of no source, refused or not, is anything deeper ever built |
| ValueWalk.UnsafeWalk.OfContainer | go/clib/core.go:377-407 | a container already on the path is a cycle, any other answers for what it holds; the path is left as it was found |
| ValueWalk.UnsafeWalk.OfValue | go/clib/core.go:344-374 | the walk ends on every heap, cyclic or not, and its answer is right for what the value holds and reaches |
| ValueWalk.UnsafeWalk.OfMembers | go/clib/core.go:430-462 | each key before its value, the first reason found |
| ValueWalk.UnsafeWalk.OfFields | go/clib/core.go:473-494 | the fields that are emitted, and no others |
| ValueWalk.StructHolds | go/clib/core.go:469-494 | a struct holds and reaches what its fields do that are exported, or embedded structs, and not tagged to be left out |
| ValueWalk.ContainerAnswers | go/clib/core.go:377-407 | what a container holds, walked with the container on the path, answers for the container |
| ValueWalk.CyclesIsHoldsItself | go/clib/core.go:327-334 | the walk meets its own path exactly where some container that is reached holds itself |
| ValueWalk.JsonUnsafe | go/clib/core.go:314-325 | no reason exactly when nothing that JSON would corrupt is reached and no container reached holds itself; a reason is always a real one |
| Registry.MovesKeepInv | go/clib/core.go:55-96 | every step of every thread keeps what the locks, the mutexes and the table promise |
| Registry.RunsKeepInv | go/clib/core.go:185-247 | so every state of every run has it |
| Registry.HandlesAreNew | go/clib/core.go:185-190 | a handle is one never issued before |
| Registry.FreedStaysFreed | go/clib/core.go:499-503 | an issued handle that is out of the table never comes back |
| Registry.StepsKeepTable | go/clib/core.go:185-190 | a step leaves every handle its parser but for a free of that handle, and enters only a new handle with a new parser |
| Registry.StaysLoaded | go/clib/core.go:499-503 | so a handle keeps its parser through any run that does not free it |
| Registry.FoundUntilFreed | go/clib/core.go:225-231 | from the step that issues a handle until one that frees it, every lookup of it finds the parser made for it |
| Registry.ParsersDiffer | go/clib/core.go:185-190 | two handles never have one parser |
| Registry.CallsDoTheirWork | go/clib/core.go:185-247 | a call that has ended has entered its handle, taken its handle out, or looked its handle up and run the parser it found |
| Registry.LookupAfterFreeFails | go/clib/core.go:225-231 | a lookup after a free finds nothing if the handle was issued when it was freed, or is not positive |
| Registry.FreeIsFinalIff | go/clib/core.go:499-503 | wherever any run has come to a free, every lookup of its handle in every run from there fails if and only if the handle was issued or is not positive |
| Registry.FreeAheadIsLost | go/clib/core.go:499-503 | from a free that comes before its positive handle is issued the run can always go on to a lookup that finds a parser |
| Registry.Exclusion | go/clib/core.go:89-96 | no two threads are in ParseEbnf, hold one parser's mutex, or write the table; none reads it while one writes |
| Registry.NoDeadlock | go/clib/core.go:225-247 | while some call is on its way some thread can step |
| Registry.SchedulesEnd | go/clib/core.go:225-247 | no schedule of the calls that are on their way goes on for ever |
| Registry.CallsCanEnd | go/clib/core.go:185-247 | and from every reachable state all of them can be brought to their end |

## Left out

- Bytes: a source is a sequence of code points. The Go scanner steps by byte, so spans and columns are exact for ASCII sources; invalid UTF-8 is not modelled.
- Patterns and flags of a compiled class, other than the ones the render reads back; the regular expressions' engines.
- The wording of diagnostics, and which of several reasons the render names first; only refusal, its kind and its place are kept.
- The render's recognition of compiler output (which rule is a helper of which kind, chains, dispatchers, foreign fields): a part is taken as read. The shared compiler is not part of this model.
- Which rules are candidates for a reference to be written back (all but aliases): the law holds for any.
- A part's place among the tokens the engine lexes, the engine itself, and the TypeScript and Rust rule tables but for the actions that keep the depth registers.
- `ValueWalk`: reflection's own panics, reported as a part that could not be inspected, and the sorting of map keys, which only settles which reason is named.
- `References`: rules are compared by their alternatives' keys, as the render compares them, so the law is about keys: the key of a tail does not say what the tail holds.
- `Registry`: `nextID` is unbounded, so the wrap of a 64-bit number is not modelled; options, construction failures and panics inside a parser are not; waiting threads are not queued, so fairness is not claimed.
- JSON encoding, the cgo layer, packaging, version checks and embedding of the sources.
- `GrammarRoundTrip`: the grammar is handed to the text layer element by element; what the shared compiler makes of it in between is not part of this model.
