# KittyTK in Dafny

KittyTK splits an application from the display that draws it, and the two talk in a
small statement language. This project models the parts of it that carry state or
arithmetic, and proves what the rest of the toolkit takes for granted about them:

* the wire language as the C client has it: quoting, the framer, the recursive parser,
  the printers and readers of filters, sorts, descriptors and scopes, and the order on
  values that every client has to agree on;
* answering a query: the sink an answer is written into, with its two modes, the batches
  a display sends in both clients, and the two correlations, of replies with requests
  and of answers with questions;
* the key registry, its overlays, and the contexts cached from it.

## How it is laid out

Code that works by changing things in place is a `class` or a method with loops, and
each such method's `ensures` ties its result or its new state to a function. What the
source promises is then proved of the functions.

| modules | what they hold |
|---|---|
| `Text`, `Lexicographic` | runs of digits and the numbers they spell; lexicographic orders over any order |
| `Utf8`, `Natural`, `NaturalMisfits`, `Order`, `OrderMeaning` | comparing runes, natural collation and the texts that break it, comparing values and records, and which comes first |
| `Quoting`, `Tokens`, `TokenMeaning`, `Syntax`, `Parser`, `ParserMeaning` | escapes, bare tokens, statements as trees and their spelling, the parser and its cursor, and the grammar as one writes it by hand |
| `RoundTrip`, `Locality`, `Framing`, `FrameLimits`, `FramerMeaning` | the parser undoes the spelling, a block is its own span, streams of statements, exactly which lines the framer takes whole, and what it makes of what lies between them |
| `Query`, `Reader`, `ReaderLoops`, `ReaderMeaning` | the query printers, and the query readers as functions, as loops, and by what each argument comes to |
| `FilterSpelling`, `DescriptorSpelling`, `SpellingLimits`, `FilterLimits` | the readers undo the printers, and exactly where they do not |
| `Sink`, `SinkRuns`, `AnswerReading`, `Extend`, `PlacedNames` | the fill sink and the text it puts together, whole runs of it, reading its statements back, leaning on a place, and the names a place carried as C keeps them |
| `Hosting`, `CHost`, `GoHost`, `BatchMeaning`, `Twins` | inbound batches in C and in Go, what their statements alone say they are answered with and make happen, and where the two agree |
| `Exchange`, `Arrivals`, `StrayReplies`, `Asking` | requests and replies, what the reader hands on, and a display that does not keep to its side; questions and answers |
| `Keymap`, `KeyEdits`, `KeyContexts`, `Restating`, `RestatedContexts`, `KeyRegistries` | the registry and what an edit of it leaves, contexts of it, restating a keymap and what contexts show then, and the classes that edit and cache |

A string is a run of bytes, one `char` to a byte. `CText` is what C sees of one: the part
before its first NUL. `isalpha` is taken in the C locale. A finite double is a `real`;
the two infinities and NaN are their own cases. A float on the wire is kept as the token
it was written as.

Every lemma says `{:induction false}`, so an inductive proof is the one in its body.
`hide` statements keep a proof from unfolding what it does not use.

## What was found

Some claims hold only within limits. Each limit below is proved from both sides: the
claim holds exactly where the condition does.

* A bare word that starts like a name and holds a `+` does not read back as an operand,
  although it does after `name=` (`SpellingLimits.OperandWordExact`,
  `SpellingLimits.NamedWordExact`, `SpellingLimits.AcceptedAndLost`).
* `id` will not read the words its printer writes bare: printed, parsed and read,
  identities come back exactly when none is such a word (`SpellingLimits.IdentitiesExact`).
* A sort level prints any field and any collation, and comes back exactly when the field
  can head a statement and the collation is one of three or none
  (`SpellingLimits.LevelExact`).
* Dropping the operator of a top-level group is sound for `and` alone
  (`FilterSpelling.FilterRoundTrip`). A filter of any depth, over all strings, survives
  being printed, parsed and read exactly when every field, value and collation in it has
  a spelling (`FilterLimits.FilterStmtExact`, `FilterLimits.FilterExact`). That takes
  collations to open no bracket: one that does can be closed by the text after it, and
  read back out of that (`FilterLimits.Borrowed`, `FilterLimits.SomeBorrow`).
* The framer does not know brackets. It takes a printed line whole, whatever follows,
  exactly when it balances it, and splits a stream of them into exactly those lines if and
  only if it balances every one (`FrameLimits.StmtFramedExactly`,
  `FrameLimits.StreamExactly`).
* Natural collation on text that is not UTF-8 need not be an order
  (`Natural.OverlongDigitBreaksTransitivity`). A text breaks it exactly when a scan finds
  an overlong digit that does not follow a digit and is either not 0 or before a rune no
  less than `0` (`NaturalMisfits.BreaksExactly`); such texts and NaN are all that does not fit the order
  of values (`Order.OnlyMisfits`).
* Turning every sort level over gives the mirror (`Order.TurnedOverIsMirror`). Turning
  some over gives it, for a pair of records, exactly when no level decides the pair or
  the first that does is among them (`Order.TurnedSomeMirrors`).
* The comment on `ApplyHostKeymap` says that restating the whole table lands back on it.
  With distinct pairs every key keeps its meanings exactly when no line blanks a key that
  a line above gave a meaning to (`Keymap.RestatingKeepsMeanings`), and then every ranking
  survives too. With a pair said twice a ranking can turn over
  (`KeyContexts.RepeatedPairTurnsRankingOver`). For every table, a command's ranking
  survives exactly when each of its keys is said again below its last blank, and weight
  and place order any two of them at first as they do at last
  (`Restating.RestatingKeepsRanking`); a second restatement changes nothing more
  (`Restating.RestatingSettles`). What each key runs in a context and which key is shown
  for a command, before and after, are read off the lines in the same way
  (`RestatedContexts.ContextsRun`, `RestatedContexts.ContextsShow`).
* The two clients refuse a batch alike, where nothing in it is addressed by a name given
  again above, exactly when the C client does not come to a statement addressed to 0
  before it refuses (`Twins.TwinsAgree`). A name given again is its first query to C and
  its last to Go, so a batch both accept leaves them with the same queries exactly when no
  `destroy` goes by such a name (`Twins.SameQueriesExactly`, and for instance
  `Twins.RepeatedKeyParts`).
* The C sink keeps the names a place carried run together. What it leaves out is what the
  Go one does, for every record, exactly when no name holds the separator and no empty
  name comes last alone (`PlacedNames.JoinedExactly`); to a reader that merges nothing is
  lost exactly when every piece is a name of the place (`PlacedNames.NothingLostExactly`).
  Names that can cross are all kept apart (`PlacedNames.SpellableKeptApart`).
* The display has to answer each batch once. On a connection at rest the next request is
  sure of its own answer exactly when reading what has arrived would leave no answer, no
  description and no trouble behind (`StrayReplies.OwnAnswerExactly`).
* Which key is shown for a command does not depend on the order a map is walked in,
  except where the empty key is the one to show and another key runs the command too
  (`KeyRegistries.ShownExactly`).

## Model

| member | source | states |
|---|---|---|
| Utf8.Utf8Next | c/kittytk.c:350-365 | the loop decodes the codepoint at an index, and how far it reaches, as `Decode` does |
| Utf8.DecodeWellFormed | c/kittytk.c:350-365 | on a well-formed sequence (section 4 of RFC 3629) the decoder gives the scalar value and the width that the bit layout of section 3 defines |
| Utf8.EncodingIsScalar | c/kittytk.c:350-365 | every scalar value has its encoding, well formed, that stands for it |
| Utf8.ScalarIsEncoding | c/kittytk.c:350-365 | and nothing else is well formed |
| Utf8.CompareRunes | c/kittytk.c:368-376 | the loop over two cursors is the lexicographic order of the two rune sequences |
| Utf8.RunesPreorder | c/kittytk.c:368-376 | comparing rune by rune, folded or not, is a total preorder on arbitrary bytes |
| Utf8.RunesZero | c/kittytk.c:368-376 | it answers 0 exactly for equal rune sequences |
| Utf8.CompareBlobs | c/kittytk.c:451-456 | `memcmp` and then length is the lexicographic order of bytes |
| Utf8.RuneOrderIsByteOrder | c/kittytk.c:350-376 | on well-formed UTF-8 the rune order and the byte order are the same |
| Natural.LongerIsLarger | c/kittytk.c:382-391 | a longer run without a leading zero spells a larger number, however long |
| Natural.CompareDigitRuns | c/kittytk.c:382-391 | stripping zeros, then length, then digits is comparison by the number spelled and then by run length |
| Natural.DigitsZero | c/kittytk.c:382-391 | two runs compare equal only when identical |
| Natural.CompareNatural | c/kittytk.c:395-412 | the two-cursor loop computes the walk the laws below are about |
| Natural.WalkIsOrder | c/kittytk.c:395-412 | the walk is the lexicographic order on tokens, each a maximal run of digits or a folded rune |
| Natural.WellFormedIsPlain | c/kittytk.c:350-412 | in well-formed UTF-8 only a digit decodes to a digit, which is all the order needs |
| Natural.NaturalPreorder | c/kittytk.c:395-412 | natural collation mirrors and is transitive where only digits decode to digits |
| Natural.WalkMirrored | c/kittytk.c:395-412 | it mirrors on arbitrary bytes |
| Natural.NaturalZeroIsFoldZero | c/kittytk.c:368-412 | natural collation answers 0 exactly when the fold collation does |
| Natural.OverlongDigitBreaksTransitivity | c/kittytk.c:350-412 | "10", an overlong 2 and "3" go round in a circle |
| NaturalMisfits.BreaksExactly | c/kittytk.c:350-412 | a text breaks transitivity with some two texts in which only digits decode to digits if and only if a scan of it finds an overlong digit, not behind a digit, that is not 0 or stands before a folded rune no less than `0` |
| Order.NumbersAreExact | c/kittytk.c:418-435 | int against int, int against float and float against float are the sign of the exact difference, for every 64-bit integer and every double but NaN |
| Order.CompareValue | c/kittytk.c:439-459 | the method compares ranks and then contents by the collation asked for |
| Order.ValuePreorder | c/kittytk.c:330-459 | the order over all values is a total preorder in every collation |
| Order.OnlyMisfits | c/kittytk.c:418-459 | in every collation a value breaks transitivity with some two others if and only if it is NaN or, read naturally, such a text |
| Order.CompareLevels | c/kittytk.c:466-474 | the loop takes the first level that decides, turned over where it descends |
| Order.RecordPreorder | c/kittytk.c:466-474 | comparing by several levels is a total preorder |
| Order.TurnedOverIsMirror | c/kittytk.h:512-515 | turning every level over gives the exact mirror |
| Order.TurnedSomeMirrors | c/kittytk.h:512-515 | turning any set of levels over mirrors a pair if and only if no level decides it or the first that does is in the set |
| OrderMeaning.KindsInOrder | c/kittytk.c:308-459 | in every collation a missing value or `undefined` comes before `nil`, then `false`, `true`, every number but NaN, every other word, every string and every block; values of a kind that holds one value tie, and so do blocks |
| OrderMeaning.OfOneKind | c/kittytk.c:330-343 | and every value is of exactly one of these kinds |
| OrderMeaning.TextInOrder | c/kittytk.c:439-459 | well-formed strings and words come in the order of their Unicode scalar values, and under `fold` in that of the same text with its ASCII capitals made small |
| OrderMeaning.NaturalInOrder | c/kittytk.c:395-412 | naturally, text comes in the order of the first tokens that differ: numbers by value and then by length, runes by codepoint |
| OrderMeaning.NumberedNames | c/kittytk.c:395-412 | names that share a stem come in the order of the numbers after it, as `file9` before `file10` |
| OrderMeaning.LevelsInOrder | c/kittytk.c:466-474 | of two records the one whose value is less at the first level that differs comes first, or last where that level descends |
| Quoting.KtQuote | c/kittytk.c:146-165 | the loop writes each character of text as itself, as a named escape or in hex |
| Quoting.KtQuoteBlob | c/kittytk.c:172-189 | and each byte of a blob |
| Quoting.QuoteRoundTrip | c/kittytk.c:146-165 | unquoting gives back what C sees of the text and stops at the closing quote, and it is the text itself exactly when that holds no NUL |
| Quoting.QuoteBlobRoundTrip | c/kittytk.c:172-189 | unquoting a blob gives it back, whatever the bytes, and stops at its closing quote |
| Quoting.QuotedIsPrintable | c/kittytk.c:146-189 | quoted text holds no control character, and a quoted blob nothing but printable ASCII |
| Quoting.PlainStaysPlain | c/kittytk.c:146-189 | text without quotes, backslashes and control characters is quoted as it is |
| Tokens.NumberValue | c/kittytk.c:544-574 | the scan accepts exactly the number grammar and tells an integer 64 bits hold from a float |
| Tokens.IntRoundTrip | c/kittytk.c:544-574 | every 64-bit integer is read back from its decimal spelling |
| TokenMeaning.NumbersAre | c/kittytk.c:544-574 | text put together of a sign, digits, a fraction and an exponent is a number, an integer of the value it spells exactly where it is a sign and digits and 64 bits hold it |
| TokenMeaning.OnlyNumbersAre | c/kittytk.c:544-574 | and only such text is |
| Tokens.KtIsWord | c/kittytk.c:822-828 | the loop accepts exactly the unsigned tokens that are not numbers |
| Parser.Cursor.Value | c/kittytk.c:649-683 | the cursor's method for a value gives what the function for the rule gives, with the cursor where it leaves off |
| Parser.Cursor.String | c/kittytk.c:591-620 | the loop over escapes is `ReadString`, malformed hex and text that ends early included |
| TokenMeaning.HexEscapes | c/kittytk.c:606-611 | `\x` and two hex digits, in either case, stand for the byte they name |
| TokenMeaning.HexOnly | c/kittytk.c:584-589 | and no other character is a hex digit |
| TokenMeaning.NotHex | c/kittytk.c:606-611 | and `\x` and any other two characters for nothing |
| TokenMeaning.Escapes | c/kittytk.c:591-620 | four letters stand escaped for a newline, a tab, a return and an escape, and every other character for itself |
| TokenMeaning.NeverClosed | c/kittytk.c:591-620 | text that is never closed is all of the string |
| Parser.Cursor.ProtectedSymbol | c/kittytk.c:634-647 | a bracketed symbol runs to its bracket and is refused when empty or cut short |
| Parser.Cursor.Statement | c/kittytk.c:687-736 | a statement: key, verb and arguments |
| Parser.Cursor.Script | c/kittytk.c:739-752 | a block: statements apart by `;`, the remaining length falling through all the recursion |
| Parser.KtParseStatement | c/kittytk.c:754-762 | one statement of a text, or none where any of it is bad |
| ParserMeaning.CharactersAre | c/kittytk.c:515-533 | which characters are blanks, begin a name, stand in one, stand in a token and begin an argument |
| ParserMeaning.BlanksSayNothing | c/kittytk.c:515-521 | blanks before a statement or its arguments change nothing, and before the statements of a block neither do semicolons |
| ParserMeaning.NamedReads | c/kittytk.c:721-725 | between a name and its sign blanks may stand; behind the sign one is refused |
| ParserMeaning.MarksRead | c/kittytk.c:717-720 | `!` before a name denies it and `?` leaves it open |
| ParserMeaning.NamesRead | c/kittytk.c:721-725 | and a name alone is asserted |
| ParserMeaning.BracketsRead | c/kittytk.c:634-647 | a bracketed symbol is what stands in its brackets, refused where that is nothing or a newline or the end cuts it short |
| ParserMeaning.TokensRead | c/kittytk.c:662-679 | a token is a number, or a word where it has no sign; with one and no number it is refused |
| ParserMeaning.BlocksRead | c/kittytk.c:653-659 | a block is the statements up to its brace, refused where that never comes |
| ParserMeaning.ArgumentsFollow | c/kittytk.c:709-735 | arguments are read one after another, and a bad one spoils them all |
| ParserMeaning.EndsRead | c/kittytk.c:709-716 | they end with the text, at a semicolon, and in a block at its brace, which is refused anywhere else |
| ParserMeaning.OddOnesRefused | c/kittytk.c:688-731 | any other character where a statement or an argument belongs is refused |
| ParserMeaning.HeadsRead | c/kittytk.c:696-708 | `key=verb` names what the verb makes |
| ParserMeaning.SignNeedsName | c/kittytk.c:696-708 | and a sign with no name behind it is refused |
| RoundTrip.ValueBack | c/kittytk.c:649-683 | a printed value, a float as its token, before anything that is not more of a token is read back, and reading stops where it ends |
| RoundTrip.StmtBack | c/kittytk.c:687-736 | so is a printed statement, with its key, flags, signed and bracketed words and blocks to any depth |
| RoundTrip.StatementRoundTrip | c/kittytk.c:754-762 | parsing a printed statement gives it back |
| Locality.ScriptLocal | c/kittytk.c:739-752 | of two texts the same up to a closing brace, a script that stops by there reads the same of both |
| Locality.BlockIsItsOwnSpan | c/kittytk.c:649-683 | for every text, neither what a closed block holds nor where it ends depends on what follows its brace |
| Framing.Stream.ScanNext | c/kittytk.c:1918-1947 | the framer's loop takes the first frame of what is unread and leaves the rest |
| Framing.QuoteBalanced | c/kittytk.c:1918-1947 | whatever a quoted string holds, the framer passes it whole |
| Framing.QuoteBlobBalanced | c/kittytk.c:172-189 | and whatever bytes a quoted blob holds |
| Framing.StmtBalanced | c/kittytk.c:1918-1947 | a printed statement never looks finished to the framer before it is, however deep its blocks, where its bracketed symbols hold none of `"`, `{`, `}` and `#` |
| Framing.StreamRoundTrip | c/kittytk.c:1918-1947 | the framer splits any run of printed statements that it balances into exactly those statements |
| Framing.PrintFrameParse | c/kittytk.c:1918-1947 | print, frame, parse is the identity on streams of statements |
| FrameLimits.StmtFramedExactly | c/kittytk.c:1918-1947 | a printed statement is the first frame before every following text if and only if the framer balances it |
| FrameLimits.StreamExactly | c/kittytk.c:1918-1947 | a stream of printed statements is split into exactly them if and only if the framer balances every one |
| FrameLimits.BalancedArrives | c/kittytk.c:1918-1947 | and then print, frame, parse is the identity on it |
| FramerMeaning.GapsThenLine | c/kittytk.c:1918-1947 | blanks, blank lines and comments before a statement are passed over, and only the blanks stay in its frame |
| FramerMeaning.GapsAlone | c/kittytk.c:1918-1947 | and alone they make no frame |
| FramerMeaning.CommentEndsStatement | c/kittytk.c:1918-1947 | a comment after a whole statement ends it as its newline would |
| FramerMeaning.InsideBraces | c/kittytk.c:1918-1947 | inside braces one is as if it were not there |
| FramerMeaning.EndOfStream | c/kittytk.c:1918-1947 | the end of what has arrived frames a whole statement and loses any other |
| Query.Buffer.PutValue | c/kittytk.c:848-883 | the printer appends a value's spelling |
| Query.Buffer.PutFieldName | c/kittytk.c:889-904 | and a field name's, quoted where it has to be |
| Query.Buffer.PutBag | c/kittytk.c:906-918 | and a bag's |
| Query.Buffer.PutFilterStmt | c/kittytk.c:936-958 | and a predicate's or a group's |
| Query.Buffer.PutFilterBlock | c/kittytk.c:926-934 | and a group's children, apart by `;` |
| Query.Buffer.PutFilter | c/kittytk.c:960-966 | and a whole filter's, without the operator of its top |
| Query.Buffer.PutSort | c/kittytk.c:968-978 | and a sort's |
| Query.Buffer.PutDescriptor | c/kittytk.c:980-1005 | and a descriptor's, leaving out what it does not say |
| Query.Buffer.PutScope | c/kittytk.c:1007-1024 | and a scope's |
| ReaderLoops.ParseFieldList | c/kittytk.c:1172-1200 | the loop over a list of names is the reader's function for it |
| ReaderLoops.ParseBag | c/kittytk.c:1204-1231 | so is the bag's |
| ReaderLoops.ParseId | c/kittytk.c:1241-1274 | and the identities' |
| ReaderLoops.ParsePredicate | c/kittytk.c:1276-1388 | and a predicate's, each refusal in its place |
| ReaderLoops.ParseFilterBlock | c/kittytk.c:1390-1402 | and a group's |
| ReaderLoops.ParseFilterArg | c/kittytk.c:1405-1412 | and a filter argument's, whose top is always `and` |
| ReaderLoops.ParseSortArg | c/kittytk.c:1416-1458 | and a sort's |
| ReaderLoops.ParseDescriptor | c/kittytk.c:1461-1499 | and a descriptor's |
| ReaderLoops.ParseScope | c/kittytk.c:1526-1598 | and a scope's |
| ReaderMeaning.ListIsRead | c/kittytk.c:1172-1200 | a list of names is read exactly when no piece between its commas is blank, as those pieces with the blanks about them taken off; blank text is no names |
| ReaderMeaning.TrimTakes | c/kittytk.c:1172-1192 | what is taken off a name are the six blanks `isspace` knows, at either end, and none is left there |
| ReaderMeaning.BagIsRead | c/kittytk.c:1204-1231 | a bag is such a list or a block of fields, and nothing else |
| ReaderMeaning.FieldIsRead | c/kittytk.c:1204-1231 | a field is a name and at most one value |
| ReaderMeaning.FieldsAreRead | c/kittytk.c:1204-1231 | and a block of them is read exactly when each of its statements is, in order |
| ReaderMeaning.IdIsRead | c/kittytk.c:1241-1274 | `id` is read exactly when it has arguments and each is a value, unnamed and no block, as those values in order |
| ReaderMeaning.OperandForms | c/kittytk.c:1085-1111 | which forms of an argument are an operand, and what value each is |
| ReaderMeaning.FieldForms | c/kittytk.c:1130-1155 | and which name a field |
| ReaderMeaning.ComparisonIsRead | c/kittytk.c:1276-1388 | one of the twelve comparisons is read exactly when its arguments are right, it names a field and has as many values as its operator takes; it is matched against all of them, by the last collation said, wherever that stands |
| ReaderMeaning.GroupIsRead | c/kittytk.c:1276-1388 | a group is one block of filters, `not` of at least one, and a verb that is none of these is refused |
| ReaderMeaning.LevelIsRead | c/kittytk.c:1416-1458 | a sort level is read exactly when its arguments are right; it descends exactly when the last direction said is down, and has the last collation said |
| ReaderMeaning.DescriptorIsRead | c/kittytk.c:1461-1499 | a descriptor is refused for its first wrong argument, for that one's reason, and is otherwise what the last argument of each name says, whatever else is among them |
| ReaderMeaning.ScopeIsRead | c/kittytk.c:1526-1598 | a scope is refused exactly when some argument has the wrong kind of value, for the first such, or an `after` stands beside a `from` that is not 0; else `count`, `from`, `after` and `until` are the last of each, the numbers cast to 32 bits, and `reversed` and `extend` are whether the last of each is asserted |
| ReaderMeaning.CastKeeps | c/kittytk.c:1526-1598 | the cast leaves a number that 32 bits hold, and any other differs from it by a multiple of 2 to the 32nd |
| FilterSpelling.FilterText | c/kittytk.c:936-958 | what the filter printer writes is the spelling of a statement tree |
| FilterSpelling.FilterReads | c/kittytk.c:1276-1412 | the reader undoes that tree, to any depth |
| FilterSpelling.FilterRoundTrip | c/kittytk.c:960-966 | print, parse and read a filter, and it is the same filter exactly when its top is `and`; any other group comes back as the `and` of its children |
| FilterLimits.FilterStmtExact | c/kittytk.c:936-958 | printed, parsed and read, a predicate or a group of any depth is the same if and only if it has a spelling: known operators, the right count of values, and every field, value and collation spellable |
| FilterLimits.FilterExact | c/kittytk.c:960-966 | and a whole filter if and only if its top is `and` as well |
| FilterLimits.Borrowed | c/kittytk.c:1308-1332 | a filter whose collation has no spelling, read back all the same out of the text after it |
| DescriptorSpelling.BagFacts | c/kittytk.c:906-918 | a bag prints as a block that reads back to it |
| DescriptorSpelling.SortFacts | c/kittytk.c:968-978 | so does a sort |
| DescriptorSpelling.DescriptorRoundTrip | c/kittytk.c:980-1005 | print, parse and read a descriptor, and it is the same: source, fields, exclusions, filter and sort |
| DescriptorSpelling.ScopeRoundTrip | c/kittytk.c:1007-1024 | and a scope: after or from, until, count and direction |
| DescriptorSpelling.QueryRoundTrip | c/kittytk.c:1461-1598 | one `new query` statement carries both, each reader passing over the other's arguments |
| SpellingLimits.NamedWordExact | c/kittytk.c:863-877 | after `name=` a word, any bytes at all, reads back if and only if it holds no NUL and is a word or can stand in brackets |
| SpellingLimits.OperandWordExact | c/kittytk.c:822-828 | as an operand it reads back if and only if it is also not cut short by the name rule |
| SpellingLimits.AcceptedAndLost | c/kittytk.c:822-828 | every bare word that starts like a name and is not all name is printed bare, lost, and would have survived in brackets |
| SpellingLimits.APlusBIsSuchAWord | c/kittytk.c:822-828 | `a+b` is one |
| SpellingLimits.IdentitiesExact | c/kittytk.c:1241-1274 | printed, parsed and read, spellable identities are the same if and only if none of them is printed as a bare name |
| SpellingLimits.LevelExact | c/kittytk.c:1416-1458 | printed, parsed and read, any sort level is the same if and only if its field can head a statement and its collation is one of three or none |
| SpellingLimits.NamesAreSpelled | c/kittytk.c:889-904 | a field's name is printed bare where it is a word, in brackets where those read back to it, and in quotes only where nothing else spells it |
| SpellingLimits.BlocksAreUndefined | c/kittytk.c:879-881 | what is no value prints as `undefined`, and reads as that word |
| Sink.SpellLine | c/kittytk.c:2220-2515 | the text put together part by part is the statement's: its head, the record with its counts, and the ending with its figures |
| Sink.Fill.Emit | client/query.go:764-783 | a statement joins the buffer, which goes out once it has grown past the threshold |
| Sink.Fill.WriteRecord | client/query.go:598-634 | a record or subset waits, the one waiting before it goes, and under `extend` it leaves out what its place carried |
| Sink.Fill.Placing | client/query.go:560-589 | a place sends what waits, goes itself, and under `extend` is remembered |
| Sink.Fill.DoFlush | client/query.go:706-721 | flushing sends what waits and empties the buffer |
| Sink.Fill.Finish | client/query.go:787-811 | the ending rides on the record waiting, or goes alone, and closes the sink |
| Sink.Perform | client/query.go:434-721 | every call changes the sink as `Do` says |
| Sink.Answer | client/query.go:764-818 | for every run of calls that ends, and every threshold, the bytes sent are the spelling of the same statements |
| Sink.RunSays | client/query.go:560-634 | up to the ending, everything given is sent or waiting, once, in the order given |
| Sink.Conservation | client/query.go:764-818 | over a run with one ending and anything after it: every record and place is sent once and in order, the last statement is the only result that ends, it says what the ending said and carries the last `Total` and the last `First` before it; each settled mark is one place with that stop and watermark, in its turn; and nothing follows the ending |
| SinkRuns.FlushOnlySplitsTheEnd | client/query.go:706-721 | taking every explicit flush out changes only whether the ending shares a statement with the last record |
| SinkRuns.OrderedWhereItCounts | client/query.go:648-658 | `ordered` is on the first statement that names a record, or on a terminator with no record before it, exactly when it was declared before any record |
| SinkRuns.LineIsTree | c/kittytk.c:2220-2515 | the text the sink puts together is the spelling of a statement tree, for every line with spellable parts |
| AnswerReading.ResultReads | c/kittytk.c:2220-2515 | everything on a line the sink makes is read back from its statement by the names of the arguments: verb, query, record, counts and fields, and how the answer ended |
| AnswerReading.PositionsAre | c/kittytk.c:2070-2086 | a member counts as ordered exactly when its name is a position in decimal, with a dot before it or without |
| SinkRuns.AnswerArrives | c/kittytk.c:2192-2515 | the bytes of an answer, framed and parsed, are its statements |
| Extend.KeyInjective | c/kittytk.c:2093-2100 | two identities share a key if and only if they cross as the same |
| Extend.MergeLacking | client/query.go:733-750 | leaving out fields a reader already holds changes nothing it ends with |
| PlacedNames.JoinNames | c/kittytk.c:2374-2380 | the loop runs a place's names together, one separator between each and the next |
| PlacedNames.PlacedHas | c/kittytk.c:2113-2124 | the loop finds a name exactly among the pieces of such a run |
| PlacedNames.JoinedExactly | c/kittytk.c:2107-2124 | the names found are the names there are, whatever is asked for, if and only if no name holds a separator and no empty one comes last alone |
| PlacedNames.BothLeaveOut | c/kittytk.c:2285-2286 | and then the C sink leaves out of a record what the Go one does |
| PlacedNames.NothingLostExactly | c/kittytk.c:2107-2124 | to a reader that merges, nothing of any record is lost if and only if every piece found is one of the place's names |
| Extend.ExtendRefinesReplace | client/query.go:733-750 | over every run, a reader that merges by identity and name, as they cross, with the first answer standing ends with the same fields in both modes |
| Extend.LeaningCountsAreExact | client/query.go:598-634 | a place and the rest of a whole record with distinct names hold exactly the members counted |
| Extend.HeldMembersAreCounted | client/query.go:598-634 | and so wherever in a run they fall: `map` and `len` are what the reader holds |
| CHost.Runner.RunJob | c/kittytk.c:2748-2773 | a job runs only on a query not yet freed, and a drop frees its own |
| CHost.Runner.OpenQuery | c/kittytk.c:2624-2656 | what `new` makes, and each refusal in its place; a query refused for its scope stays |
| CHost.Runner.RouteOne | c/kittytk.c:2660-2707 | one statement routed: looked up, refused, let go or deferred |
| CHost.Runner.RunBatch | c/kittytk.c:2715-2779 | routes, answers and then runs what was deferred, calling what each source has; each query dropped is freed by this batch and by none before |
| CHost.RouteKeeps | c/kittytk.c:2660-2707 | one statement keeps: live ids distinct, every id minted live or about to be dropped or freed and only one of them, no job on a query freed, none after its drop |
| CHost.RunBatches | c/kittytk.c:2715-2779 | after any run of batches every id minted is live or has been freed, and not both |
| CHost.OneAnswerFirst | c/kittytk.c:2715-2779 | one reply or error to a batch, before anything else it makes happen |
| CHost.GoneForGood | c/kittytk.c:2660-2679 | an id destroyed is refused for ever, whatever batches come |
| BatchMeaning.CReplies | c/kittytk.c:2715-2779 | an accepted batch is answered with its names in order, each with the last id before the batch and how many `new` stand up to it |
| BatchMeaning.CBatchDefers | c/kittytk.c:2660-2707 | it defers, in order, a fill for each `new` with the scope asked for, a drop for each `destroy` and every other statement about a query, each about the id it opens with or the first query given the name it opens with |
| BatchMeaning.BatchHappens | c/kittytk.c:2748-2773 | what a batch makes happen after its answer: each fill is filled where the batch was accepted and its source has a filler and failed anywhere else, and drops and statements reach the sources that want them |
| BatchMeaning.RefusedFillsNothing | c/kittytk.c:2748-2773 | so a refused batch fills nothing, and fails every fill it had deferred |
| BatchMeaning.RefusedIsError | c/kittytk.c:2727-2733 | in both clients a refused batch is answered with its refusal |
| BatchMeaning.Addressed | c/kittytk.c:2593-2604 | a statement is addressed by an id or by a name where it opens with one bare, and by nothing where it has no arguments |
| BatchMeaning.OpeningIs | c/kittytk.c:2624-2656 | a `new` is a query's exactly when it says so bare and its descriptor reads and names a source served; each other one has its own refusal |
| BatchMeaning.QueryServed | c/kittytk.c:2624-2656 | a printed `new query` of a source served is accepted by both clients, and its query and fill have the descriptor and the scope printed |
| GoHost.ServingConn.MintID | client/query.go:198-203 | an id nothing was called before |
| GoHost.ServingConn.OpenQuery | client/query.go:303-353 | a query is named, registered and keyed before its scope is read, so one refused for its scope stays |
| GoHost.ServingConn.RouteOne | client/query.go:249-295 | routes one statement: which refusal, which deferred call, and only where a handler is set |
| GoHost.ServingConn.InboundBatch | client/query.go:214-233 | routes all of a batch, answers it, and then does everything it deferred |
| GoHost.RefusalStopsNothing | client/query.go:220-224 | a refusal changes the answer and nothing else, and the first one is the one heard |
| GoHost.OneAnswerFirst | client/query.go:214-233 | one reply or error to a batch, before anything else it makes happen |
| GoHost.IdsOnlyRise | client/query.go:198-203 | over any run of batches every query filled has a greater id than each one filled before it |
| GoHost.DestroyedIsGone | client/query.go:276-286 | destroying a query takes its id out of use |
| GoHost.GoneForGood | client/query.go:261-268 | and a batch that opens with a statement addressed to it is answered with that refusal for ever |
| BatchMeaning.GoReplies | client/query.go:214-233 | an accepted batch is answered with one id for each name given in it: the last id before the batch and how many `new` stand up to and including the last under that name |
| BatchMeaning.GoBatchHappens | client/query.go:249-295 | and then makes happen, in order, a fill for each `new`, and for each statement about a query what the handlers of that query's source want to hear |
| BatchMeaning.GoRunsAll | client/query.go:230-232 | a refused batch stops none of what it deferred |
| BatchMeaning.AddressingIs | client/query.go:261-275 | in either client a statement about a live query is refused only where it asks again or would change it, one about a query not live always is, and one about none never |
| Twins.TwinsAgree | c/kittytk.c:2593-2779 | where nothing is addressed by a name given again, both clients refuse for the same reason or neither does, if and only if the C one does not come to a statement addressed to 0 before it refuses; accepted then, it leaves both with the same queries and names, and the same jobs but for those with no handler in Go |
| Twins.SameQueriesExactly | c/kittytk.c:2593-2779 | a batch both accept leaves them with the same queries if and only if no `destroy` in it goes by a name given again above |
| Twins.RepeatedKeyParts | c/kittytk.c:2593-2603 | with a key given twice both accept and they let different queries go, whatever the two queries are |
| Exchange.RemoteTransport.RouteLine | client/remote.go:281-376 | what the reader does with each kind of statement |
| Exchange.RemoteTransport.Deliver | client/remote.go:388-394 | a reply is kept unless one is already |
| Exchange.RemoteTransport.ReadLoop | client/remote.go:263-378 | the loop folds that over all that arrives |
| Arrivals.BatchesHandedOn | client/remote.go:313-337 | whatever arrives, the batches handed on are the statements addressed to this end, split at each `end`, in order and with the empty ones left out; what follows the last `end` is still gathered |
| Arrivals.EventsAndAnswers | client/remote.go:345-376 | the events handed on are the event records, and the answers those that decode, each in the order it arrived |
| Arrivals.WaitingForReply | client/remote.go:281-310 | the descriptions and trouble held are those since the last reply or error, in order |
| Arrivals.ReplyWaiting | client/remote.go:281-310 | the reply waiting is the first that arrived, with the descriptions and trouble that came before it |
| Exchange.StepKeeps | client/remote.go:237-253 | each step of a caller, the display or the reader keeps the one batch outstanding in its place |
| Exchange.EveryExecGetsItsOwnAnswer | client/remote.go:237-253 | over every interleaving, the nth request written gets the nth answer, with exactly the trouble and descriptions said of its batch, or is told the connection was lost and is the last |
| StrayReplies.OwnAnswerExactly | client/remote.go:237-394 | from any connection at rest, over every run, the next request is told what was said of its own batch if and only if reading what has arrived would leave nothing behind |
| Exchange.GatheredWholeWhateverComesBetween | client/remote.go:313-337 | the batches gathered for this end do not depend on what else arrives among their statements |
| Asking.Base36Injective | client/answers.go:35-37 | the base-36 spelling tells numbers apart |
| Asking.KeysDiffer | client/answers.go:35-37 | so no two keys minted are alike, and none is empty |
| Asking.KeyReads | client/answers.go:35-37 | a key is a letter and a number, written with the digits and small letters of base 36 |
| Asking.QuestionsNumbered | client/answers.go:35-37 | and that number is how many questions have been asked, given up or not |
| Asking.Asked.Key | client/answers.go:35-37 | the next key, and the counter advanced |
| Asking.Asked.AskFor | client/answers.go:93-106 | mints and registers, and lets go again where the question could not be sent |
| Asking.Asked.InboundAnswer | client/answers.go:66-80 | looks up, lets go where the answer completes, and then calls |
| Asking.CalledUntilComplete | client/answers.go:35-106 | over every interleaving of steps, a question sent has its handler called with exactly the answers quoting its key, in order, up to and including the first that completes |
| Asking.GivenUpIsSilent | client/answers.go:99-104 | one that could not be sent calls nobody from then on |
| Asking.ForgottenFirst | client/answers.go:74-79 | a handler told its question is over is already not held |
| Keymap.EditKeepsSerialised | core/keymap.go:143-210 | every edit keeps serials distinct across the registry and none ahead of the counter, and one that changes anything moves the revision on |
| Keymap.BuiltSerialised | core/keymap.go:75-97 | so does building the registry from a table |
| KeyEdits.BoundAnew | core/keymap.go:143-157 | after binding a key it means that command alone, as the newest pair there is; bound to nothing it means nothing; no other key changes |
| KeyEdits.AddedLast | core/keymap.go:161-179 | a meaning added is the last its key has and the newest there is; one the key has already changes nothing |
| KeyEdits.PreferredNewest | core/keymap.go:187-210 | a meaning preferred becomes the newest, where it stands or last, at the greater of its weight and the one asked for |
| KeyEdits.OthersKeep | core/keymap.go:187-210 | and the key's other meanings stay what and where they were |
| KeyEdits.OverlayIs | core/keymap.go:601-612 | a line of an overlay without a command unbinds the key it names, and one with a command prefers it |
| Keymap.RestatingLandsBack | core/keymap.go:578-617 | restating a table of distinct pairs that blanks nothing late keeps every key's meanings, order and weights, and adds the same amount to every serial |
| Keymap.RestatingKeepsMeanings | core/keymap.go:564-617 | of tables of distinct pairs those are exactly the ones whose meanings survive |
| KeyContexts.RankingUnique | core/keymap.go:218-241 | a command's keys have one ranking |
| KeyContexts.RestatingChangesNoRanking | core/keymap.go:578-617 | restating such a table changes no command's list of keys, no context's resolution and no key advertised |
| KeyContexts.RepeatedPairTurnsRankingOver | core/keymap.go:578-617 | with a pair said twice a ranking turns over |
| Restating.RestatedRank | core/keymap.go:601-617 | laid over anything that came from it, a table gives each pair the rank it has laid over nothing, every serial greater by the same amount, repeats and late blanks included |
| Restating.RestatingKeepsRanking | core/keymap.go:578-617 | for every table, restating it keeps a command's ranking if and only if every key said for it is said again after its last blank, and weight and place order any two of its keys at first as at last |
| Restating.RestatingSettles | core/keymap.go:578-617 | for every table, restating it a second time changes no ranking |
| RestatedContexts.ContextsRun | core/keymap.go:341-375 | for every table and key, what the key runs in a context is the first command on offer that the lines say, and after restating the first said below its last blank |
| RestatedContexts.ContextsShow | core/keymap.go:412-432 | for every table, which key is shown for a command, before restating and after, by weight and place of its lines at first and at last |
| RestatedContexts.RestatingKeepsShown | core/keymap.go:578-617 | the key shown survives if and only if the lines put it on top below the last blanks |
| KeyContexts.OverlaysNeverSteal | core/keymap.go:161-210 | whatever is added or preferred, a key that ran a command in a context built for any commands still runs it there |
| KeyContexts.OverlayIsFavours | core/keymap.go:601-612 | an overlay without blanks is a run of such edits |
| KeyContexts.ContextRanked | core/keymap.go:341-375 | a context's ranks are one to a key and never tied |
| KeyContexts.AdvertisedRuns | core/keymap.go:412-432 | the key advertised for a command runs it there and outranks every other that does |
| KeyContexts.AdvertisesUnique | core/keymap.go:412-432 | and there is one such key |
| KeyRegistries.KeyRegistry.constructor | core/keymap.go:75-97 | the nested loops build the registry a table's lines say |
| KeyRegistries.KeyRegistry.Rebind | core/keymap.go:143-157 | replaces what a key means, or unbinds it |
| KeyRegistries.KeyRegistry.AddMeaning | core/keymap.go:161-179 | adds a meaning a key does not have |
| KeyRegistries.KeyRegistry.MakeNewest | core/keymap.go:187-210 | makes a pair the newest, in place, and never lowers its weight |
| KeyRegistries.KeyRegistry.ApplyHostKeymap | core/keymap.go:601-617 | the nested loops overlay a table's lines in order |
| KeyRegistries.KeyRegistry.KeysFor | core/keymap.go:218-241 | exactly the keys a command has, each outranking the next |
| KeyRegistries.KeyRegistry.BuildContext | core/keymap.go:341-375 | in whatever order the table is walked, the context holds the first meaning on offer of each key that has one |
| KeyRegistries.ShownExactly | core/keymap.go:412-432 | every order of walking the mappings finds the key to advertise if and only if that is not the empty key with another running the command |
| KeyRegistries.KeyForCommand | core/keymap.go:412-432 | the loop finds it in every such context |
| KeyRegistries.TiesGoToGreatest | core/keymap.go:419-431 | where no rank tells keys apart, every order of walking them finds the one spelled greatest |
| KeyRegistries.GreaterParts | core/keymap.go:419-431 | which is the one that goes on or has the greater byte where two part |
| KeyRegistries.TrinketKeys.KeyCommand | core/keymap.go:757-771 | the cached context resolves as one built there and then |
| KeyRegistries.TrinketKeys.KeyToShow | core/keymap.go:773-788 | and advertises as one built there and then |
| KeyRegistries.EditOneOf | core/keymap.go:697-788 | an edit of any registry, the cached one or not, leaves a cache that can tell it is stale |
| KeyRegistries.Run | core/keymap.go:697-788 | over any run of edits, changes of owner, of commands and of the registry in force, every answer is the one a fresh context gives |

## Left out

- Query.Buffer.PutValue: how a double is printed and read (`enc_float`, `strtod`) is the C library's; a float is written as the token it came with, and round trips are of that token.
- Framing of text that was not printed: the framer and the parser disagree about malformed `\x` escapes (c/kittytk.c:606-611), so streams are stated for printed statements.
- The `bytes` rank: nothing in the C client makes a value of that rank, so the byte order is related to the rune order and not to a value.
- The Go `wire` and `serval` packages are not part of this model: the Go sink's statements are spelled as the C sink spells them, and the Go batches use the C readers of descriptors and scopes. There a place is remembered by `serval.Key`, which stands here for the identity as written; a result's identity is an integer, a text, a word or a fractional number as written.
- Widths of counters: the ids, serials, revisions and keys are unbounded, where the source wraps at 64 bits.
- The sink is sequential: Go's `record` emits after it unlocks, so a racing ending can lose a record. What a send that fails does is not modelled.
- Text of error messages: a refusal is which rule refused and the names it quotes.
- The C client's thirty-second timeout (c/kittytk.c:3031), which lets a late reply answer the next request; requests and replies are Go's.
- Exchange.EveryExecGetsItsOwnAnswer: assumes that the display answers each batch once, in order, and reports trouble or describes only while it is answering; a write that fails is taken to have written nothing.
- Exchange.RemoteTransport.ReadLoop: the other channels are unbounded, so a reader blocked on a full one is not seen, and whether each statement decodes is given with it.
- AnswerReading.PositionsAre: takes a position to be any number, where the C client's wraps past the width of a `long`.
- AnswerReading.ResultReads: takes a line's fields to be spellable and its figures to fit 64 bits, as every sink's are unless it is given others.
- Liveness: an `Exec` holds the write lock until it is answered, and nothing here says that it will be.
- Asking.CalledUntilComplete: minting a key and registering its handler are one step, which nothing can tell apart because nobody knows the key between them.
- Key hints: what a line's hints say is a function of its text, in one environment.
- Multi-key sequences, `Add` and `ClearAccelerators` on a context, and the menu accelerators: a context is a map from a key to a command.
- KeyRegistries.TrinketKeys.KeyCommand: which registry is in force where the owner sits is a parameter; finding it walks the trinket tree.
- KeyContexts.RestatingChangesNoRanking: goes one way, for tables of distinct pairs; `Restating` and `RestatedContexts` say exactly when rankings, resolution and the keys shown survive, for every table.
- FilterLimits.FilterExact: takes collations to hold no `(` and no `{`, as does `FilterLimits.FilterStmtExact`; one that does can be read back out of the text that follows it (`FilterLimits.Borrowed`).
- FilterSpelling.FilterText: a filter's operators are taken to hold no NUL; fields, collations, sources and words are cut at theirs.
- Sockets, TLS, known hosts, threads, the handshake, describe decoding, handles, stores and everything that draws.
