# JSONC text engine: model and proofs

JSONC is JSON with comments and trailing commas. The library this project
belongs to reads such text with a hand-written scanner and a recursive-descent
parser, keeps comments on the nodes of a syntax tree, prints trees in several
layouts, decodes streams of values, lays the JSON of marshalers out again
without building a tree, and edits trees by JSON Pointer and JSON Patch. This
project models that engine in Dafny, down to the bytes, and proves what it is
relied on for. Text is a sequence of bytes throughout.

## How it is built

Every component exists twice. A pure definition says what is computed on values
(`Lexer`, `Syntax`, `Printer`, `QuotedStrings`, `Relayout`, `PatchValues`,
`PatchMoves`, `JsonPatch`), and the lemmas are about these. A class or a set of
methods runs as the Go code does, with its loops, fields and early returns, and
each method's contract says that the state it leaves is the one the pure
definition gives (`Scanner`, `MemberIndex`, `Parser`, `Encoder`, `Decoder`,
`Unquoting`, `PatchTree`, `PathRead`, `PathDelete`). The pure definitions are
held against references of their own: the grammar of RFC 8259 as derivation
trees (`Rfc8259`), evaluation and operations of RFC 6901 and RFC 6902 over JSON
values with objects as maps (`JsonPatch`), the real number that a number text
denotes (`Numbers.Value`), the Unicode scalar values of UTF-8 and UTF-16 by their
bits (`Spelling`), a normal form of JSON values (`Equality`), the place of every
comment told from the tokens around it (`CommentSlots`), continuations of an
input (`Viability`), rules of layout on scanned output (`OutputLayout`), and lines
of the source (`Positions`).

The main results:

- The fast path. `relayout` is a loop over tokens with a stack of frames, one
  shared stack of keys and a rollback of its buffer. It writes exactly what
  parsing the data and printing the tree writes, for every input, depth and
  layout, or nothing at all; and it succeeds on exactly the texts for which the
  RFC 8259 grammar has a derivation in which no object has two equal names and
  containers nest ten thousand deep or less. The equation between the machine
  and the parser is `ValueRuns` and `ChildrenRuns`; a duplicate key seen early
  dooms a run that notices it only where its object closes (`DoomedFails`).
- Acceptance. In strict mode the scanner and the parser together accept exactly
  the byte strings that RFC 8259 derives; with a depth limit or the duplicate
  check, exactly those whose derivation meets them. Limits and the duplicate
  check are exact. Comments and line breaks change neither acceptance nor meaning.
- Errors. A syntax error is reported at the first token with which the tokens so
  far can no longer be continued to a document, a limit or a duplicate at the
  token where it is met, a scan error at its own offset; a stream reports the same
  error for the input from its offset on, moved by that offset.
- Comments. Which note a comment goes to is a function of the tokens around it.
  The tree holds exactly the comments of every such slot, line by line and in
  order, and those of the slot that the parser drops are the only ones lost from
  members that are kept.
- Strings. Every string of the grammar unquotes to the UTF-8 of the scalar values
  that its characters, short escapes, units and pairs of units spell, and
  quoting writes each of them in the form preferred for it.
- Printing. The output scans to the tokens of the value with every comment that
  the options let be written in its place between them; its lines, indents,
  blanks and commas keep the rules of the layout, and nothing else does. In
  every layout the output, comments included, parses back to the same value,
  under any limits that admit its tree, and the limits a document was read under
  admit it. Compact output is strict JSON and a fixed point, so minimizing twice
  is minimizing once.
- Streams. Every value a `Decoder` gives is what the bytes between the offset
  before and the offset after mean as a document of their own, and the offset is
  known to the byte.
- Patches. Applying a patch to the tree in the heap, in place on a deep clone,
  does what folding the operations over JSON values does; each operation leaves
  exactly the tree, comments and source forms included, that `PatchValues` and
  `PatchMoves` say; neither the input nor an operand is written to, and the result
  shares no node with them. On JSON values an operation changes the one place it
  names and fails exactly where it cannot.
- Equality. Two values are found equal exactly when their normal forms are the
  same; the canonical text of a number is a normal form for numeric equality, and
  the overflow guard before its addition is exact.

## Where the code and its documentation differ

- The patch documentation says that numbers are compared by numeric value.
  `numbersEqual` also calls two numbers unequal when either has an exponent that
  does not fit sixty-four bits, unless the two texts are the same:
  `Numbers.FarZeroIsNotEqual` gives a zero that is found unequal to zero, and
  `Numbers.NumbersEqualExactly` says exactly when the answer is yes.
- `InputOffset` is documented to stand past the value and the spaces and tabs
  that follow it (unmarshal.go:161-167). That holds unless the value is an object
  or an array and a comment or a line break follows its closing bracket on the
  same line: then the offset is past that too, because the parser has looked for a
  comment there (parser.go:156, parser.go:346, parser.go:576-584).
  `Offsets.OffsetIsDocumented` is the equivalence; `Offsets.BreakIsCounted` shows
  an input, `{}` and a line break, where the offset is 3 and the documented one 2.
- The rules of comment association say that comments between a key and its value
  are dropped (parser.go:15-27). Another is lost too: of two comments behind an
  element that is an object or an array, on its line, the second takes the place
  of the first (parser.go:346, parser.go:364-366). `CommentSlots.SlotAt` tells the
  dropped ones from the tokens around them, `CommentSlots.CommentsAreKept` says
  that all others are kept, and `CommentSlots.SomeAreDropped` is an input.
- The comment on `opMove` says that a member moved to another member keeps its
  comments (patch.go:319-320). It keeps them exactly when the member it comes upon
  has no comments or the same ones: `PatchMoves.MovedNotes` says which comments
  are there afterwards, `PatchMoves.KeptExactly` is the equivalence, and
  `PatchMoves.CommentIsLost` is a move that loses a comment.
- Removing the whole document is an error in the code; RFC 6902 does not forbid
  it. The model follows the code.

## Model

| member | source | states |
|---|---|---|
| RelayoutRefines.RelayoutRefinesParseThenPrint | encode.go:1028-1043 | for every data, strictness, depth, layout and buffer: the token machine gives the buffer followed by the printed tree of a strict, duplicate-free, depth-limited parse, and fails where that parse fails |
| RelayoutRefines.RelayoutAgreesWithTreePath | encode.go:1013-1026 | where the machine succeeds, the tree path accepts the same bytes and prints the very same output |
| RelayoutAccepts.RelayoutAcceptsExactly | encode.go:1028-1032 | the fast path succeeds if and only if the RFC 8259 grammar has a derivation of the data in which no object has two equal unescaped names and containers nest at most 10000 deep |
| RelayoutLaws.ValueRuns | encode.go:1096-1216 | from any configuration of stack, keys and buffer, running over the tokens of a value equals parsing the value and continuing with its printed text written |
| RelayoutLaws.ChildrenRuns | encode.go:1096-1216 | the same for the inside of an open container, with the children already written and their keys on the shared stack |
| RelayoutLaws.DoomedFails | encode.go:1239-1264 | once two keys of one open object are equal, no continuation of the run succeeds, although the check comes only where the object closes |
| RelayoutLaws.RunRejects | encode.go:1028-1032 | a comment or a scan error anywhere in the tokens makes the run fail |
| RelayoutRefines.LooserDocument | encode.go:1002-1008 | what a strict duplicate-free parse accepts, the parse of the tree path accepts with the same tree |
| RelayoutRefines.BomIsRejected | encode.go:1002-1008 | data that begins with a byte order mark is no document, so leaving that case to the tree path loses nothing |
| KeySort.NeighboursDecide | encode.go:1239-1264 | after any sort of the keys, two equal neighbours exist if and only if the list had a duplicate |
| KeySort.SortKeys | encode.go:1239-1264 | the result is in byte order and a permutation of the keys |
| KeySort.HasEqualNeighbours | encode.go:1239-1264 | the loop answers yes exactly when some key equals the one before it |
| RelayoutLoop.NextTakes | encode.go:1096-1113 | a step of the byte scanner takes the first of the remaining tokens, with its source text |
| RelayoutLoop.RunSkipsLines | encode.go:1070-1077 | line breaks in front make no difference to a run |
| Encoder.Encoder.WriteEmbedded | encode.go:1013-1026 | the buffer grows by the printed tree of the embedded value if the value parses, and stays as it was otherwise, by either path |
| Encoder.Encoder.Relayout | encode.go:1033-1043 | all or nothing: on success the printed tree of the strict parse is appended, on failure the buffer is exactly the old one |
| Encoder.Encoder.RelayoutTokens | encode.go:1096-1216 | the loop ends as the machine does on the tokens of the data, and never rewrites what was in the buffer |
| Encoder.Encoder.RelayoutScalar | encode.go:1048-1067 | when the first token is a scalar the result is the machine's; otherwise nothing was written |
| Encoder.Encoder.NextValueToken | encode.go:1070-1077 | the next token that is no line break, with its source bytes |
| Encoder.Encoder.Turn | encode.go:1096-1216 | one turn is one step of the machine, and the key stack stays nested as the frames are |
| Encoder.Encoder.KeyTurn | encode.go:1121-1143 | a key, or the end of an object, as the machine takes it |
| Encoder.Encoder.ValueTurn | encode.go:1151-1193 | a value, or the end of an array, as the machine takes it |
| Encoder.Encoder.NextTurn | encode.go:1194-1213 | a comma, or the end of the container, as the machine takes it |
| Encoder.Encoder.RelayoutChild | encode.go:1221-1234 | the count of children goes up by one and what goes before a child is written |
| Encoder.Encoder.RelayoutClose | encode.go:1239-1264 | an object with a duplicate key is not closed and nothing is written; otherwise the closing text is |
| Encoder.Encoder.RelayoutString | encode.go:1269-1280 | the source text if it may be kept, or else the quoted text, or nothing when it does not unquote |
| Encoder.Encoder.RelayoutKeyText | encode.go:1284-1294 | the text that the key spells, whether or not it needs decoding |
| Encoder.Encoder.ParseEmbedded | encode.go:1002-1008 | one value without a byte order mark, parsed with duplicates allowed and nesting limited |
| Encoder.Encoder.EncodeNode | encode.go:127-141 | the whole document is the rendering of its pieces; `PrintedFlow.OutputSaysTheTree`, `OutputLayout.OutputIsLaidOut` and `EmptyContainers.EmptyIsClosedAtOnce` say which bytes these are |
| Encoder.Encoder.WriteValue | encode.go:250-277 | appends the rendering of the value at its depth |
| Encoder.Encoder.WriteCompact | encode.go:307-323 | a container on one line |
| Encoder.Encoder.WriteMultiline | encode.go:325-338 | a container with its children and foot comment on lines of their own |
| Encoder.Encoder.WriteChildren | encode.go:209-245 | every child with its head comment, separator and end of line |
| Encoder.Encoder.WriteHeadComments | encode.go:172-183 | the comments above a child, its value's included, if the options let them be written; by `PrintedFlow.OutputSaysTheTree` these are all of them |
| Encoder.Encoder.WriteLineComments | encode.go:188-203 | all comments on a line but the last in block form, so that none hides another |
| Encoder.Encoder.WriteCommentBlock | encode.go:397-408 | one line comment a line, leading blank lines dropped |
| Encoder.Encoder.WriteLineCommentText | encode.go:413-420 | two slashes, a blank, the text without trailing blanks |
| Encoder.Encoder.WriteInlineComment | encode.go:426-433 | a line comment, or a block comment when the text has line breaks |
| Encoder.Encoder.WriteInlineBlockComment | encode.go:437-449 | a block comment that its own text cannot end |
| Encoder.Encoder.WriteIndent | encode.go:382-389 | the indent once for each level |
| Encoder.Encoder.WriteQuotedString | encode.go:495-550 | the loop, which goes on by whole runes, appends the quoted form |
| Encoder.Encoder.WriteSourceString | encode.go:281-295 | the source text when it is valid UTF-8 and needs no escaping, or else the quoted value |
| PrintedFlow.OutputSaysTheTree | encode.go:127-245 | scanned, the output gives the tokens of the value in order, and between them, each in its place, the lines of all comments that the options let be written, padding and broken-up delimiters aside |
| OutputLayout.OutputIsLaidOut | encode.go:205-389 | scanned, the output keeps the rules of its layout: a line for each child and for the closing bracket of what the options spread, the indent once per open bracket, a trailing comma exactly where asked for, and blanks nowhere else |
| EmptyContainers.EmptyIsClosedAtOnce | encode.go:325-338 | a container with nothing inside is closed right behind its opening bracket, in order, except those that are spread and have a comment of their own |
| CommentText.CommentBlockIs | encode.go:397-408 | the comment tokens of a block are the lines of the text but for leading blank ones |
| CommentText.LineTextIs | encode.go:413-420 | the text without trailing blanks, with one blank in front unless one is there or nothing is left |
| Scanner.Scanner.Advance | scanner.go:441-462 | keeps the position where its line and column say, counting CR, LF and CRLF as one break each |
| Scanner.Scanner.ScanEscape | scanner.go:251-280 | takes exactly an escape sequence, or reports an error at its backslash |
| Scanner.Scanner.ScanString | scanner.go:213-242 | takes exactly a string token of the pure lexer, or reports an error at its first bad escape or control character, and at its start when it is unterminated |
| Scanner.Scanner.ScanNumber | scanner.go:290-376 | takes exactly a number token: sign, integer part, fraction, exponent; or reports an error at its start |
| Scanner.Scanner.ScanLiteralWord | scanner.go:381-406 | takes the word if no letter, digit or underscore goes on behind it, or else reports an error at its start |
| Scanner.Scanner.ScanComment | scanner.go:106-119 | a line or block comment; in strict mode an error at its start |
| Scanner.Scanner.ScanLineComment | scanner.go:125-151 | the text up to the line break; a control character in it is an error at that byte |
| Scanner.Scanner.ScanBlockComment | scanner.go:156-207 | the body with its line breaks normalized, the copy that starts at the first CR equal to normalizing the whole; a control character is an error at that byte, a missing end one at the start |
| Scanner.Scanner.ScanNext | scanner.go:61-102 | one token of the pure lexer, from the byte the scanner is at, or its error at its exact offset |
| Scanner.Scanner.Next | scanner.go:46-58 | one step of the pure lexer after blanks; token and error positions are located and the error offset exact; a line break's position is behind it |
| CommentText.LineCommentScans | scanner.go:125-151 | two slashes and a line of allowed bytes are one line comment with that text, up to a line break or the end |
| CommentText.LineCommentForm | scanner.go:125-151 | and no other text is a line comment |
| CommentText.BlockCommentScans | scanner.go:156-207 | a body of allowed bytes without the closing delimiter is one block comment |
| CommentText.BlockCommentForm | scanner.go:156-207 | and no other text is a block comment |
| CommentText.BreaksBecomeLf | scanner.go:182-197 | in stored text every line break, CR, LF or CRLF, is one LF, and nothing else is changed |
| Positions.SourceLine | errors.go:314-331 | the loop finds the text of line n, or that there is none |
| Positions.AdvancedIsLocated | scanner.go:441-462 | the position invariant: the line found by number begins column minus one bytes back, and no line break lies between, for any mix of CR, LF and CRLF |
| Positions.LocatedInLine | errors.go:314-331 | every located position's line exists and reaches up to it |
| Positions.LocatedIsUnique | scanner.go:441-462 | an offset has one line and column, so an error offset fixes the whole position |
| LexerLaws.ScanTokenLocal | scanner.go:61-102 | a token depends only on its own bytes, as long as what follows cannot be read as more of it |
| LexerLaws.NextLocal | scanner.go:46-58 | the same for a whole step, blanks included |
| Rendering.StrictScan | scanner.go:106-119 | strict and lax scanning agree on all text without comments, and strict scanning gives none |
| Rendering.ScanRendered | encode.go:250-277 | well-spaced pieces scan back to exactly their tokens, whatever follows |
| MemberIndex.MemberIndex.Find | parser.go:237-250 | the scan below sixteen entries and the map from sixteen on give the same place, holes skipped |
| MemberIndex.MemberIndex.Place | parser.go:177-187 | appends the member and leaves a hole where an earlier one of its key was |
| MemberIndex.MemberIndex.Rewrite | parser.go:186-210 | once the last member has its comments, the live members are the earlier ones with this one put in |
| MemberIndex.MemberIndex.Add | parser.go:253-266 | the map, built late or kept up to date, still finds what a scan finds |
| MemberIndex.ClearIsWithout | parser.go:144-184 | clearing a slot removes exactly the member of that key |
| MemberIndex.FoundIsHasKey | parser.go:237-250 | a place is found exactly when a live member has the key |
| LastWins.LastMemberWins | parser.go:123-222 | an object keeps exactly the members with no later member of their key, in source order |
| LastWins.NoneReplaced | parser.go:177-187 | with duplicates refused, an object keeps every member and no two share a key |
| Duplicates.DuplicatesAreExact | parser.go:177-187 | a document is refused for duplicates exactly when, allowing them, its tree has fewer members than it has colons; otherwise the trees are equal |
| Limits.LimitsAreExact | parser.go:607-632 | parsing under limits succeeds exactly when unlimited parsing does and nesting, members and nodes are within their limits, with the same tree |
| Sizes.ParsedIsAdmitted | parser.go:607-632 | the limits under which a document was read admit its tree, although replaced members are no longer in it |
| Transparency.DocumentTransparent | parser.go:466-537 | a document and its tokens without comments and line breaks give the same acceptance, error and value |
| Transparency.SameTokensSameValue | parser.go:60-390 | two inputs that differ only in comments and line breaks are both accepted with the same value, or both not |
| WellFormed.ParsedIsWf | parser.go:60-390 | every parsed tree has valid token texts, clean comment texts, one value a member, and distinct keys |
| WellFormed.TokensAreGenuine | scanner.go:61-102 | every token's text has the form of its kind |
| Locality.ValueLocal | parser.go:94-120 | what follows a value changes neither the value nor the counters |
| GrammarLaws.AcceptsWhatIsDerivable | parser.go:52-390 | a strict parser, with or without a depth limit and the duplicate check, accepts a byte string if and only if sections 2 to 7 of RFC 8259 have a derivation of it that nests within the limit and, if duplicates are refused, has no two equal unescaped names in one object |
| GrammarLaws.AcceptsRfc8259 | parser.go:52-390 | strict parsing without limits accepts a byte string if and only if sections 2 to 7 of RFC 8259 derive it |
| Lexemes.NumberScans | scanner.go:290-376 | every number of section 6 of RFC 8259 is one number token, whole |
| Lexemes.NumberForm | scanner.go:290-376 | every number token is a number of section 6 |
| Lexemes.StringScans | scanner.go:213-280 | every string of section 7 of RFC 8259, at byte level, is one string token |
| Lexemes.StringForm | scanner.go:213-280 | every string token is a string of section 7 |
| Parser.Parser.constructor | parser.go:43-46 | nothing taken, all tokens of the source to come |
| Parser.Parser.Peek | parser.go:589-595 | the first token left, scanned once; an error is remembered |
| Parser.Parser.Bump | parser.go:599-603 | takes that token; the end and an error stay |
| Parser.Parser.EnterDepth | parser.go:607-616 | one level deeper, and whether that is over the limit |
| Parser.Parser.BumpNodeCount | parser.go:623-632 | one node more, and whether that is over the limit |
| Parser.Parser.CollectHeadComments | parser.go:466-483 | the comments and line breaks in front are taken and their texts joined, none if they are blank; `CommentSlots.CommentsAreKept` says where they are in the tree |
| Parser.Parser.CollectTrailingInlineComment | parser.go:487-494 | at most one comment on the same line, none if it is blank |
| Parser.Parser.AttachAfterComma | parser.go:510-519 | a comment behind the comma becomes the child's line comment, or joins its foot |
| Parser.Parser.SkipDroppedComments | parser.go:524-537 | comments with no place to go are skipped |
| Parser.Parser.ParseStringValue | parser.go:392-409 | a string scalar, or the error of the specification |
| Parser.Parser.ParseValue | parser.go:94-120 | the result, tokens left and counters are those of the specification; the depth is restored |
| Parser.Parser.ParseObject | parser.go:123-222 | an object with its comments, under the limits |
| Parser.Parser.ParseMembers | parser.go:135-222 | the loop over slots with holes ends with the specification's children |
| Parser.Parser.Admit | parser.go:177-191 | refuses a duplicate or one key too many, or else places the member |
| Parser.Parser.AddMember | parser.go:177-221 | the member with the comments around its comma is among the children, an earlier one of its key is not |
| Parser.Parser.ParseMember | parser.go:270-315 | key, colon and value, with comments between them dropped |
| Parser.Parser.ParseArray | parser.go:318-390 | an array with its comments, under the limits |
| Parser.Parser.ParseElements | parser.go:330-390 | the loop over elements ends with the specification's children |
| Parser.Parser.FollowChild | parser.go:193-220 | what comes behind a child: its comments, then a comma or the closing delimiter, or an error |
| Parser.Parser.ConsumeTrailing | parser.go:548-571 | only comments behind the root, which become its trailing comment |
| Parser.Parser.ParseRoot | parser.go:60-90 | a whole document |
| Parser.Parser.Parse | parser.go:52-58 | the tree of the specification, or its error, with the offset exactly where parsing halts: `Viability.HaltsWhereStuck` and `LimitHalts.ChecksAreExact` say which token that is; a scan error is returned exactly where the parser has come to it |
| Parser.Parser.ValueEnd | parser.go:576-584 | the end of the tokens taken and the blanks behind them, or of the line break where one was looked at |
| Viability.HaltsWhereStuck | parser.go:60-390 | a syntax error or too deep nesting is reported at a token such that the tokens before it can be continued to a document and those with it cannot |
| LimitHalts.ChecksAreExact | parser.go:177-191 | a duplicate is reported at the key whose text an earlier member of the same object has, a key too many at the key that is the first over the limit, a node too many behind the first over it |
| CommentSlots.CommentsAreKept | parser.go:15-27 | for every slot but the dropped one, the lines of the comments whose place in the token sequence is that slot are, in order, the lines that the tree holds in it, unless a member was replaced |
| CommentSlots.DocumentKeeps | parser.go:466-519 | the same for every document that is read with duplicate keys refused |
| CommentSlots.SomeAreDropped | parser.go:364-366 | two comments behind an element that is a container, of which the first is lost |
| Unparsing.TreeSpellsDocument | parser.go:60-390 | the tree spells the document again, token by token, unless a member was replaced |
| SyntaxTurns.AttachFollows | parser.go:177-221 | checking, following and putting a member in sequence is the one step of the specification |
| PrintedValues.EncodedTokens | encode.go:127-141 | in every layout the document scans to the tokens of its value, with comments and line breaks only in between |
| RoundTrip.CoreReadsBack | encode.go:250-277 | the tokens of a printed value parse to the same value where the limits admit the tree, and fail where they do not |
| RoundTrip.CoreTallies | encode.go:250-277 | printed tokens nest, and hold members and nodes, exactly as the tree does |
| RoundTrip.PrintingPreservesMeaning | encode.go:127-141 | for every well-formed tree, layout with a blank indent and limits: the output parses if and only if the limits admit the tree, and then means what the tree means |
| PrintedTokens.BlockCommentRenders | encode.go:437-469 | any comment text becomes one block comment, even if it holds the closing delimiter |
| PrintedTokens.LineNotesAreQuiet | encode.go:188-203 | comments at the end of a line hold no token and swallow none |
| Compact.StrictOutputIsStrict | encode.go:127-162 | output without comments is accepted by a parser, strict or not, if and only if its limits admit the tree, with the same value |
| Compact.CompactIsFixedPoint | encode.go:307-364 | compact output parses if and only if the limits admit the tree, and printing what is parsed gives the same bytes |
| Format.FormatKeepsMeaning | format.go:34-46 | reformatting a document keeps its value, in every layout, to every parser whose limits admit it; a parser with the limits of the first does |
| Format.MinimizedIsStrictAndFixed | format.go:51-63 | minimizing gives strict JSON of the same value under the limits the source was read with, and minimizing that changes nothing |
| Format.MinimizingIsIdempotent | format.go:51-63 | minimizing twice is minimizing once, under any options |
| Format.StrictFormatKeepsMeaning | format.go:11-20 | strict output in any layout is RFC 8259 JSON of the same value, read under the limits the source was read with |
| StringLaws.ScannedStringUnquotes | strings.go:29-72 | every string token unquotes, to valid UTF-8 |
| StringLaws.UnquoteInvertsQuote | encode.go:495-550 | unquoting the quoted form of valid UTF-8 gives it back, with or without HTML escaping |
| StringLaws.QuoteIsToken | encode.go:495-550 | the quoted form of any bytes is one string token and valid UTF-8 |
| StringLaws.QuoteIsRawOk | encode.go:292-295 | the quoted form may itself be kept as source text: with HTML escaping nothing that needs it is left |
| StringLaws.SourceStringKeepsText | encode.go:281-295 | whichever form of a token is written, it is one token of the same text, and stable |
| StringLaws.PlainTextSpellsItself | strings.go:29-40 | valid text without a backslash spells itself |
| Spelling.StringSpells | strings.go:29-128 | every string of section 7 of RFC 8259 unquotes to the UTF-8, told by its bits, of the scalar values that its characters spell: a pair of units is put together arithmetically, a lone half and a bad byte are U+FFFD |
| Spelling.SpellingIsRead | strings.go:29-150 | a text unquotes to itself whatever way each of its scalar values is spelled, in bytes, by a short escape, or by the escapes of its UTF-16 units in digits of any case |
| Quoting.QuoteWrites | encode.go:495-550 | quoted text is a string of the grammar with every character in its preferred form, and bad bytes replaced |
| Quoting.SourceIsKept | encode.go:281-295 | a string is written as the source has it exactly when that is UTF-8 and HTML escaping is off or covers none of its characters; otherwise its value is quoted |
| Unquoting.UnquoteString | strings.go:29-72 | the loop computes what the quoted text spells by `Spelling.StringSpells`, or fails, for every input |
| Unquoting.AppendEscape | strings.go:78-101 | appends what the escape spells and moves behind it |
| Unquoting.AppendUnicodeEscape | strings.go:106-128 | pairs surrogates, and replaces a lone one by U+FFFD, as `Spelling.Spelled` has it |
| Unquoting.ParseHex4 | strings.go:132-150 | the sixteen-bit number of four hexadecimal digits |
| Unquoting.ContainsByte | strings.go:153-160 | whether the byte occurs |
| NodeImport.KeepsRawKey | node.go:338-342 | the source text of a key is kept exactly when it is one valid string token that spells the key |
| NodeImport.PlainStringToken | node.go:352-365 | valid UTF-8 with no bare quote or control character between the quotes |
| NodeImport.KeptIsToken | node.go:349-365 | for text that unquotes, that test decides whether it is one scanner token |
| Decoder.Decoder.constructor | unmarshal.go:116-127 | nothing read, offset zero, no error |
| Decoder.Decoder.EnsureLoaded | unmarshal.go:177-203 | reads once; the failure is an oversized input exactly when a limit is set and passed, otherwise an undecodable one exactly when it cannot be decoded, otherwise none; a failure stays |
| Decoder.Decoder.NextValue | unmarshal.go:207-230 | which of value, end or error comes depends only on the tokens from the offset on; the value is that of the bytes between the offsets as one document; the new offset is exact; the error is that of the input from the offset on, its position moved by the offset; an error stays |
| Decoder.Decoder.Decode | unmarshal.go:131-148 | the same for the first call, which loads, and every later one: the values so far are those of consecutive slices of the input, an error is that of the input from the last offset on, and after an error nothing changes |
| Decoder.Decoder.More | unmarshal.go:153-159 | changes neither offset nor values; yes exactly when something is left to read and no error is, the failure to load included |
| Decoder.Decoder.ParseNext | unmarshal.go:212-228 | the next value from the tokens left, and exactly where it ends, or the error that parsing them halts with, at its exact offset |
| Decoder.Decoder.Record | unmarshal.go:228-230 | the slice up to the new offset means the value just parsed |
| Streaming.SliceIsDocument | unmarshal.go:207-230 | the next value of a stream means what its own slice means as a document |
| Streaming.AloneIsDocument | unmarshal.go:234-252 | the tokens of a value alone are the document of that value |
| Streaming.DocumentHasNoBom | scanner.go:27-41 | nothing that parses begins with a byte order mark |
| Streaming.MarksAreRead | scanner.go:27-41 | only U+FEFF in UTF-8 is taken off; input that begins with it in UTF-16 or UTF-32, of either byte order, is refused |
| Halts.ComplaintMoves | unmarshal.go:103-104 | what is complained of in the source is what is complained of in its slice, the offset moved by where the slice begins |
| Slices.SliceTokens | parser.go:576-584 | the slice between two offsets has exactly the tokens between them |
| Slices.CutTokens | parser.go:576-584 | cutting the source behind a token leaves the tokens before it as they were |
| Slices.BoundaryOrder | unmarshal.go:161-167 | offsets behind more tokens are further on |
| Offsets.EndIsOffsetBehind | parser.go:576-584 | where valueEnd finds the parser, told from the kind of the value and the token behind it |
| Offsets.OffsetIsDocumented | unmarshal.go:161-167 | the offset is the documented one if and only if no comment or line break follows a container on its line; otherwise it is further on |
| Offsets.BreakIsCounted | unmarshal.go:161-167 | for `{}` and a line break the offset is 3 and the documented one 2 |
| Numbers.CanonicalNumber | patch.go:484-524 | the text operations in sequence compute the canonical text, or fail |
| Numbers.CanonicalExactly | patch.go:484-524 | it succeeds exactly when the exponent and the shifted exponent fit sixty-four bits: the guard rejects exactly what would overflow |
| Numbers.CanonicalIsNormalForm | patch.go:480-524 | where both have one, canonical texts are equal exactly when the rational values are |
| Numbers.NumbersEqualExactly | patch.go:468-478 | numbers are found equal exactly when their texts are the same, or both are in range with equal values |
| Numbers.EqualQuantities | patch.go:466-478 | number texts are found equal exactly when they denote the same value, or neither has a value in range and they are the same text |
| Numbers.FarZeroIsNotEqual | patch.go:468-478 | two zeros that are not found equal, the exponent of one being out of range |
| Pointers.DecodePointerToken | path.go:173-194 | the loop decodes the two escapes and refuses any other tilde |
| Pointers.ReadPointer | patch.go:104-121 | the decoded tokens of a pointer, or failure |
| Pointers.TokensOfText | path.go:140-169 | the pointer written for a token list has those tokens |
| Pointers.TextOfTokens | path.go:140-169 | and a valid pointer is the one written for its tokens |
| Pointers.SamePointer | patch.go:334-336 | valid pointers have equal texts exactly when they have equal tokens |
| Pointers.DescendantPointer | patch.go:337-339 | one text and a slash begin the other exactly when the one token list is a proper prefix of the other |
| Pointers.ParseArrayIndex | path.go:199-213 | the index that a token denotes, or none |
| Pointers.ArrayIndexIsDecimal | path.go:199-213 | a token is the index n exactly when it is the decimal text of n and n fits an int |
| JsonPatch.SameReflexive | patch.go:401-440 | equality of JSON values is reflexive |
| JsonPatch.SameSymmetric | patch.go:401-440 | and symmetric |
| JsonPatch.SameTransitive | patch.go:401-440 | and transitive, through nested objects compared as maps |
| JsonPatch.EqualPartIsSame | patch.go:396-440 | replacing a part anywhere by an equal one, a number respelled say, gives an equal value |
| Equality.SameIsEqual | patch.go:396-440 | values are equal exactly when their normal forms are the same: a number is its value if that is in range and otherwise its text, an object a map, and all else is what it is |
| Equality.TestIsEqual | patch.go:377-396 | a test succeeds exactly when what the pointer leads to has the normal form of the value, and leaves the document as it is |
| JsonPatch.AddedValueIsThere | patch.go:181-236 | after an add the pointer leads to the value added |
| JsonPatch.RemoveUndoesAdd | patch.go:239-270 | a remove undoes an add at a new place |
| PatchLaws.EditDoes | patch.go:187-307 | an add, remove or replace is made exactly where it can be: the members or elements at its place are changed as its name says, and nothing else is |
| PatchLaws.OperationDoes | patch.go:83-100 | every operation does what its name says, or fails exactly where that cannot be done |
| PatchLaws.AddUndoesRemove | patch.go:239-270 | adding back what was removed restores the document |
| PatchLaws.MovingBackRestores | patch.go:321-359 | a value that was moved to a new place can be moved back, and then the document is what it was |
| PatchValues.GetMeaning | patch.go:145-179 | following a pointer through ordered members agrees with RFC 6901 over maps |
| PatchValues.EditMeaning | patch.go:187-307 | an edit of ordered members agrees with RFC 6902 over maps, and keeps keys unique |
| PatchValues.EditByPath | patch.go:130-142 | an edit at a pointer is the edit of the part its parent tokens lead to, everything else in place |
| PatchValues.PermutedMembers | patch.go:401-440 | the order of members, their comments and their source forms do not matter to the JSON value |
| PatchValues.MeaningOfValue | patch.go:401-464 | trees that differ in comments and source forms alone mean the same |
| PatchValues.ParsedIsProper | parser.go:123-222 | every parsed tree meets what the patch theorems ask: one value a member, unique keys |
| PatchMoves.MoveMeaning | patch.go:321-359 | the tree that a move leaves, comments carried, means a remove and then an add of what was there |
| PatchMoves.CopyMeaning | patch.go:362-372 | a copy means an add of what is there |
| PatchMoves.PerformMeaning | patch.go:83-100 | what an operation does to a tree with comments means what it does to JSON values, failures included |
| PatchMoves.PerformAllMeaning | patch.go:70-80 | a run of operations on a tree means the run of RFC 6902 operations on its JSON value |
| PatchMoves.CarryKeeps | patch.go:353-357 | carrying comments changes the comments of the one member and not the value |
| PatchMoves.AddedNotes | patch.go:187-236 | an add leaves a member that was there its comments, and a new one none |
| PatchMoves.MovedNotes | patch.go:319-359 | a moved member has, at its new place, the comments of the member it came upon, or else its own |
| PatchMoves.KeptExactly | patch.go:319-320 | it keeps its own if and only if the member it came upon has none, or the same |
| PatchMoves.CommentIsLost | patch.go:319-320 | a move upon a member with another comment, after which the moved comment is gone |
| DocTree.Clone | path.go:503-515 | a copy of fresh nodes with the same content, comments and source forms |
| DocTree.PutKeeps | patch.go:187-307 | with one part of the heap tree exchanged, the whole is a tree again, with that part of its shape exchanged |
| PatchTree.Descend | patch.go:145-166 | the node that one token leads to, or none |
| PatchTree.ResolveIn | patch.go:169-179 | the node that the tokens lead to, at the position they denote |
| PatchTree.ResolveTarget | patch.go:169-179 | a part of the document with the value that RFC 6901 evaluation gives |
| PatchTree.ResolveParent | patch.go:130-142 | the container that the last token is applied to |
| PatchTree.OpAdd | patch.go:187-236 | the heap tree becomes, comments and source forms included, the tree with the edit made; new nodes are fresh |
| PatchTree.OpRemove | patch.go:239-270 | the same for remove, with no new nodes |
| PatchTree.OpReplace | patch.go:275-307 | the same for replace, where a replaced element keeps its comments if the new value has none; the place must exist |
| PatchTree.OpMove | patch.go:321-359 | the whole tree after a move: removed, added, and the comments carried to the new member if it has none; to the same place it changes nothing, into itself it fails |
| PatchTree.CarryComments | patch.go:353-357 | the tree with the comments carried: the member moved to takes them if it has none of its own, and nothing else changes |
| PatchTree.MemberNotes | patch.go:340-343 | the comments of the member that those tokens name in the tree, if there is one |
| PatchTree.OpCopy | patch.go:362-372 | a copy is an add of a copy of what is there |
| PatchTree.OpTest | patch.go:377-396 | succeeds exactly when there is a value at the place and its normal form is that of the operand, and changes nothing |
| PatchTree.ReplacementNode | path.go:290-297 | a fresh copy of the value, with the old node's comments if it has none |
| PatchTree.NodeEqual | patch.go:401-440 | answers whether the normal forms of the two JSON values are the same, whatever the comments, source forms and member order |
| PatchTree.ObjectMembers | patch.go:455-464 | the map holds each key's value |
| PatchTree.ApplyOp | patch.go:83-100 | one operation leaves exactly the tree that `PatchMoves` gives, which means what it does on JSON values |
| PatchTree.Apply | patch.go:70-80 | the result is exactly the tree, comments included, that the operations in order give, which means folding them over JSON values; nothing that existed is modified, the result is fresh, a failure gives no tree |
| PathRead.Read | path.go:216-228 | reading a compiled pointer selects the one node that resolving it finds, or nothing |
| PathRead.ApplyToken | path.go:364-389 | one segment selects a member's value or an array's element |
| PathRead.ChildByName | path.go:401-414 | the value of the member of that name, in an object |
| PathRead.ResolveTargetNode | patch.go:169-179 | resolving selects the same node, so reading and resolving agree on every document |
| PathDelete.Visit | path.go:464-478 | every node below the root is mapped to its parent |
| PathDelete.FindChild | path.go:482-499 | the parent from the map, and the place of the node among its children or of the member whose value it is; not found exactly when the map or the children do not have it |
| PathDelete.Delete | path.go:337-361 | deleting what a pointer matches does what the remove operation does; the root is refused, a miss changes nothing |
| PathDelete.RemovableIsThere | path.go:337-361 | what a pointer leads to can be removed, and nothing else can |

## Left out

- Encoding and decoding of Go values (`encodeValue`, `decodeValue`, struct tags,
  marshaler dispatch, contexts, cycle detection): they rest on Go's types.
- Reading and writing files and streams: `Decoder` is given its input as bytes,
  so errors of the reader itself are not part of this model.
- Texts of error messages, warnings, positions kept in nodes, `RawValue` slices
  of the source, and the drawing of source lines under errors. Parse errors are
  kept as categories with a located position.
- That formatting twice is formatting once, comments included: the printer may
  write a comment where the parser puts it into another note. Proved instead: what
  the parser keeps, and what the printer writes, comment by comment.
- CommentSlots.CommentsAreKept: the comments of a member that a later one of its
  key replaces go with it and are left out of the count.
- Comment nodes among children, and source texts that do not spell their node's
  value: neither comes out of the parser. Round-trip and patch theorems ask for
  well-formed trees, which `WellFormed.ParsedIsWf` and
  `PatchValues.ParsedIsProper` give for every parsed document.
- Layouts whose indent is not made of spaces and tabs: they need not print JSON.
- Path expressions other than pointers (wildcards, recursion, slices), and with
  them `Replace`, `Append`, `Walk` and `Validate`: they would add easy members.
- Encoder.Encoder.WriteCompact: `writeObjectCompact` and `writeArrayCompact`,
  which differ in their delimiters, are one method; so are the multi-line ones,
  and `writeObject` and `writeArray`.
- Numbers.CanonicalNumber: lower-casing is that of ASCII, which is what number
  texts consist of.
- Library calls are written out: sorting as an insertion sort that satisfies the
  contract of a sort, `Atoi`, `Itoa`, `Split`, `Cut` and the UTF-8 functions by
  what they compute. Their own code is not part of this model.
- Ghost parameters of the tree methods (`Twig`, the decoder's `log`) describe the
  shape of the heap and the history; they have no counterpart in the code.
