# A verified model of the agentic research backend

This project models the stateful and algorithmic core of a research and search
backend: its query-filter language, authentication with key rotation, robots.txt
matching, server-sent events, token-bucket rate limiting, research jobs and their
event log, streamed answers with citations, session memory, rank fusion,
highlights and metering. Each part has an executable Dafny model of the code and
theorems over every input or every run.

`dafny verify dfyconfig.toml` checks everything.

## The parts

**Query filters** (`Filter*.dfy`). `FilterParser.Parser` is the recursive-descent
parser with its position, nesting depth and comparison count; every method is
proved to read what a grammar function of the same name reads (`FilterLexer`,
`FilterGrammar`). `FilterPrinter` is the canonical printer and `FilterEquality`
the permutation-insensitive equality. The central theorem gives the exact result
of parsing a printed tree, for every well-formed tree: the canonical tree `Canon`
(operands sorted by text, operands of the same operator spliced in, numbers
rounded to their printed value) if the text is within the parser's bounds, and
"too large" otherwise. From it follow exact conditions, for every well-formed tree,
for two filters to print alike, for a reprint to be stable, and for the round trip
to hold up to structural equality, the text's length included. Well formed means
what the grammar can produce: known fields, bounded strings and value sets, at
least two operands. A number is
*steady* if its printed value is printed the same way again: every integer is, and
so is every other number that is printed below a million. A tree is *settled* if the
operands of every And and Or stay sorted once nested ones are spliced in. The
*arranged* tree is the tree as it is printed: operands sorted and spliced, values
sorted, nothing rounded.

`FilterScan` reads the same language without recursion: token by token, remembering
what may come next, how deep the expressions are and how many comparisons were read.
The parser accepts, refuses and fails exactly as this scan does (`FilterErrors`), and
what the scan has read is the beginning of an accepted filter whenever the limits
leave room for its end (`FilterViable`). `FilterSpelling` says exactly how each token
may be spelled and that all spellings of a comparison mean the same, `FilterPrinted`
how literals look when they are printed. `FilterExamples` holds inputs on which the round trip fails.

**Token bucket** (`TokenBucket.dfy`): the script over exact reals, runs of calls on
one key with and without the key's expiry.

**robots.txt patterns** (`Robots.dfy`): the greedy wildcard loop against fillings of
the stars.

**Server-sent events** (`Sse.dfy`): formatting and keepalives on the server, line
splitting over arbitrary chunks and the line state machine in the client.

**API keys** (`Auth.dfy`, `AuthReplies.dfy`): the key table, the prefix cache with its lifetime and
eviction, authentication, rotation and creation, as classes that refine a step
function; runs interleave them with invalidations and the passing of time.
`AuthReplies` says what every reply, rotation and cached entry is, in terms of rows
and times alone.

**Research jobs** (`Research*.dfy`): the event log with its two
separately locked steps and its cleanup, clients that reconnect, and the job with
its plan, budgets and partial report. `ResearchReports` compares every outcome with
the job's own log.

**Answers** (`Answer.dfy`), **session memory** (`SessionMemory.dfy`), **rank fusion**
(`Fusion.dfy`), **highlights** (`Highlights.dfy`) and **metering** (`Metering.dfy`) each
pair the code's loops with a simple specification.

`Text.dfy` holds strings, numerals and sorting.

## Assumptions

- Text is ASCII; strings are sequences of characters.
- Filter numbers are exact decimals. Integers print in full and all others with
  six significant digits, as the printer does; binary rounding, overflow, underflow
  and signed zero of floats are not modelled.
- Times, token counts and scores are real numbers, and there is one clock.
- JSON is a pair of functions that undo each other on single trimmed lines.
- A stored hash verifies exactly the token it was made from.
- Fetching candidate rows and caching them is one step, and each SQL statement or
  transaction is one step.
- What the network, the model provider, a plan's tools and the random generators
  return are parameters, and every value of them is covered.

## Where the code and its documentation differ

The model follows the code.

- `README.md:22` promises a parse/print round trip. It fails for an And directly
  under an And or an Or under an Or, whose parentheses the printer drops; for
  numbers of more than six significant digits that are not integers; and for filters
  whose printed text, with its added spaces, is longer than the parser accepts.
  `FilterExamples.NestedAndExample`, `FilterExamples.LongNumberExample` and
  `FilterExamples.GrowingExample` are inputs; `FilterAccepted.RoundTripHoldsIff` says
  exactly when it holds, and `FilterAccepted.ReprintHoldsIff` when the second printed
  text is the first.
- Numbers beyond the range of a double, such as `domain = 1e400`, are accepted as
  infinity, on which `backend/query_filter/printer.py:47` raises. The model prints
  their exact values; `FilterExamples.NumeralRoundTrip` leaves them out.
- `backend/query_filter/parser.py:23` speaks of nesting levels. The code counts
  parenthesized expressions and the root, but no "not": `FilterExamples.NotsDoNotNest`.
- `backend/query_filter/parser.py:16` lists dotted keys for metadata only. The code
  accepts keys behind the five other fields too: `FilterSpelling.FieldsAre`.
- `backend/auth/key_management.py:112-115` says that after T + G only the new key
  works. A service that is not notified may accept the old one until its cached
  rows expire: `Auth.GraceOverrunExample`, and `Auth.GraceEndsOnTimeIff` for the
  exact condition.
- `backend/research_agent/events.py:110-113` promises strictly monotonic numbers.
  Two emitters of one job keep that only by losing an event:
  `ResearchEvents.OvertakenIsRejected`.
- A robots.txt pattern ending in `$` can miss paths it should match:
  `Robots.AnchoredMisses`, and `Robots.AnchoredPatternsMatch` for the exact set.
- `backend/rate_limiter/metering_buffer.py:95-149` can lose an event when an append
  overflows the buffer during a flush, or when two flushes overlap:
  `Metering.OverflowDuringFlushLoses`, `Metering.OverlappingFlushesLose`, and
  `Metering.EveryBillableEventIsKeptIff` for the exact condition.

## Model

| member | source | states |
|---|---|---|
| FilterRoundTrip.ParsePrinted | backend/query_filter/printer.py:57-101 | Parsing the printed form of any well-formed tree gives exactly its canonical tree if text, nesting and comparisons are within the bounds, and the too-large error otherwise |
| FilterEquality.SamePrintIffAlike | backend/query_filter/printer.py:27-116 | Two well-formed filters print alike if and only if, once sorted and spliced, they are the same tree up to the texts of their literals: the printer is injective up to order |
| FilterEquality.SamePrintIffSameCanon | backend/query_filter/printer.py:27-116 | Well-formed filters that print alike have the same canonical tree and are both steady or neither; two steady ones print alike if and only if they have the same canonical tree |
| FilterEquality.PrintRenders | backend/query_filter/printer.py:57-101 | Printing any well-formed tree is writing out its arranged tree without any sorting, in every precedence context |
| FilterEquality.CanonIsRounded | backend/query_filter/printer.py:38-101 | The canonical tree is the arranged tree with its numbers rounded to six significant digits |
| FilterReprint.ReprintIsStableIffSettled | backend/query_filter/printer.py:57-101 | A well-formed tree and its canonical tree are printed alike if and only if the operands stay sorted once nested ones are spliced in and every number is steady; the first holds of every tree without such nesting |
| FilterReprint.CanonIsFixed | backend/query_filter/printer.py:57-101 | Of every well-formed tree the second canonical tree is its own: from there on nothing changes |
| FilterStructural.StructuralEqIffSamePrint | backend/query_filter/ast_types.py:152-200 | Structurally equal well-formed filters print alike and, where they are comparisons below any negations, have the same values; the converse holds where no And lies directly under an And nor Or under an Or at the top |
| FilterStructural.SamePrintSameValues | backend/query_filter/ast_types.py:121-142 | If all numbers of two filters survive printing, printing alike implies the same values |
| FilterStructural.StructuralRoundTrip | backend/query_filter/ast_types.py:152-200 | A well-formed filter is structurally equal to its canonical tree if and only if, below any negations, the numbers of a comparison survive printing, and the operands of an And or Or are not of its own kind, settled and steady |
| FilterStructural.FlatRoundTrips | backend/query_filter/ast_types.py:152-200 | Filters without such nesting anywhere meet that condition if and only if their numbers do, always if all survive printing |
| FilterStructural.KeysCompare | backend/query_filter/ast_types.py:168-176 | Value sets have the same sorted keys if and only if they have the same values equally often |
| FilterStructural.SetsCompare | backend/query_filter/ast_types.py:168-176 | Well-formed value sets with the same sorted keys print the same list; if all their numbers survive printing, only those do |
| FilterNumber.RoundedIsExact | backend/query_filter/printer.py:44-51 | A number keeps its value when printed if and only if it is an integer or has at most six significant digits |
| FilterNumber.SteadyNumberIff | backend/query_filter/printer.py:44-51 | A number and its printed value are printed alike if and only if the number is an integer or that value is below a million |
| FilterTokens.NumberReads | backend/query_filter/parser.py:480-516 | The printed form of a number, before any delimiter, is read as its printed value |
| FilterTokens.LiteralReads | backend/query_filter/parser.py:409-478 | The printed form of every literal, escapes and timestamps included, is read back as that literal, numbers as their printed value, and nothing after it is consumed |
| FilterTokens.ValuesRead | backend/query_filter/parser.py:518-528 | A printed list of values is read back value by value, numbers as their printed values |
| FilterTokens.FieldReads | backend/query_filter/parser.py:316-368 | Every legal field name is read back as itself |
| FilterTokens.FieldWf | backend/query_filter/parser.py:316-344 | Every field name the parser accepts is legal |
| FilterSpelling.KeywordIff | backend/query_filter/parser.py:162-174 | A keyword is read if and only if it stands next, behind whitespace, each letter in either case, and ends there |
| FilterSpelling.IdentifierIff | backend/query_filter/parser.py:346-368 | An identifier is read if and only if it is the longest run of letters, digits and underscores there and does not begin with a digit |
| FilterSpelling.FieldsAre | backend/query_filter/parser.py:316-344 | The legal fields are five names with any keys behind dots, and metadata with at least one key, none longer than 128 characters |
| FilterSpelling.OperatorIff | backend/query_filter/parser.py:370-407 | An operator is read if and only if its symbol, or for the comparisons its word in any case, stands next and what follows does not make it another |
| FilterSpelling.SpellingsAgree | backend/query_filter/parser.py:255-290 | Whatever text follows, a comparison spelled with a symbol, with the word in any case, and with any whitespace or none, is parsed as with the canonical spelling and single spaces, if both are short enough |
| FilterSpelling.SpelledComparisonMeans | backend/query_filter/parser.py:281-290 | A comparison in any spelling is the tree it says: "<" is less than, ">" greater than, and so on for all six |
| FilterSpelling.StringIff | backend/query_filter/parser.py:427-461 | A string is read if and only if a spelling of it, with escapes for any of its characters and for line feed, tab and carriage return, stands between quotes, and it has at most 1024 characters |
| FilterSpelling.NumeralIsRead | backend/query_filter/parser.py:480-516 | Every numeral, with any sign, fraction and exponent in either letter, is read as its exact value before whatever ends a value |
| FilterSpelling.TimestampsAre | backend/query_filter/parser.py:65-70 | The timestamps are a date, or a date and a time with perhaps a fraction and perhaps a zone, Z or an offset |
| FilterPrinted.PrintedIsNearest | backend/query_filter/printer.py:44-51 | A number that is not an integer is printed as the nearest number of six significant digits, the even one of two |
| FilterPrinted.NumberIsPrinted | backend/query_filter/printer.py:44-51 | It is printed without superfluous digits, plainly if its leading digit stands between 10^-4 and 10^5, and otherwise with an exponent of at least two digits |
| FilterPrinted.IntegerIsPrinted | backend/query_filter/printer.py:44-51 | An integer is printed as its sign and all its digits |
| FilterPrinted.StringIsPrinted | backend/query_filter/printer.py:40-43 | A string is printed between quotes with a backslash before each quote and backslash and nothing else changed |
| FilterAccepted.AcceptedIsWellFormed | backend/query_filter/parser.py:185-314 | Every accepted input gives a well-formed tree (value sets of 1 to 256) with at most 1024 comparisons, at most 64 And and Or nodes on any path, and a printed form within 32 levels |
| FilterAccepted.RoundTripHoldsIff | backend/query_filter/printer.py:57-101 | The printed form of a well-formed filter is parsed to a structurally equal one if and only if its text, depth and comparisons are within the bounds and the condition of FilterStructural.StructuralRoundTrip holds |
| FilterAccepted.ReprintHoldsIff | backend/query_filter/printer.py:57-101 | It is parsed to one that is printed alike if and only if it is within the bounds, settled and steady |
| FilterAccepted.ReparseAccepted | backend/query_filter/parser.py:76-114 | Of accepted inputs both hold under the same conditions, where the only bound left is the length of the printed text; its reparse is the canonical tree or the too-large error |
| FilterExamples.NestedAndIsLost | backend/query_filter/printer.py:86-91 | For every "(x and y) and z" of well-formed operands within the bounds the round trip fails |
| FilterExamples.NestedAndExample | backend/query_filter/printer.py:86-91 | One concrete input of that kind |
| FilterExamples.NumeralRoundTrip | backend/query_filter/printer.py:44-51 | For every text that is read as a number within the range of a double, with any sign, fraction and exponent, "domain = " before it is accepted; it survives the round trip if and only if its text is short enough and the number survives printing, and reprints alike if and only if it is short enough and steady |
| FilterExamples.LongNumberExample | backend/query_filter/printer.py:44-51 | The input `domain = 1234567.5` is accepted, becomes 1234570, and fails both |
| FilterExamples.GrowingSets | backend/query_filter/printer.py:73-75 | A set of n equal strings separated by commas alone is accepted; it survives both if and only if n - 1 more characters are within the length bound |
| FilterExamples.GrowingExample | backend/query_filter/printer.py:73-75 | An accepted input of 16136 characters whose printed form has 16391 and is refused |
| FilterExamples.NotsDoNotNest | backend/query_filter/parser.py:235-243 | Any number of "not" before a printed filter is accepted if the text is short enough and the filter itself fits; otherwise the text is too large |
| FilterScan.ParseFollowsScan | backend/query_filter/parser.py:76-149 | On every input that is neither blank nor too long, the recursive parser accepts, refuses or fails as the flat scan does, a failure at the position where the scan stops |
| FilterErrors.AcceptedIff | backend/query_filter/parser.py:76-114 | An input is accepted if and only if it is short enough, its scan comes to the end, and no place of it is beyond a limit |
| FilterErrors.TooLargeIff | backend/query_filter/parser.py:91-98 | An input is too large if and only if it is not blank and it is too long or its scan comes into a 33rd level of expressions or behind a 1025th comparison |
| FilterErrors.SyntaxErrorIff | backend/query_filter/parser.py:134-149 | A syntax error is reported at a position if and only if the scan stops there and goes over no limit; so at no other position |
| FilterErrors.BlankIff | backend/query_filter/parser.py:82-89 | Input is refused as empty if and only if all its characters are whitespace |
| FilterErrors.ErrorsAreLocated | backend/query_filter/parser.py:76-149 | Every error is blank input, too large, or a syntax error at the position where the scan stops |
| FilterErrors.StopMeaning | backend/query_filter/parser.py:146-183 | The scan stops at the next character that is no whitespace, except behind the beginning of a field or literal that is not one and behind a set with too many members |
| FilterViable.SyntaxErrorsAreEarliest | backend/query_filter/parser.py:146-149 | Where a token is found wrong, what was read before it is the beginning of an accepted filter if and only if the limits leave room for one more comparison or value; a way to end it is given |
| FilterViable.ReadTextIsViable | backend/query_filter/parser.py:185-314 | The same of every place to which the scan of any input comes within the limits |
| FilterErrors.ExprAgrees | backend/query_filter/parser.py:185-314 | Wider limits change nothing but a too-large result: the tree, what is left and the place of a failure stay the same |
| FilterErrors.ErrorsTellPositions | backend/query_filter/parser.py:134-144 | Errors at different positions have different lines or columns |
| FilterErrors.PositionMeaning | backend/query_filter/parser.py:134-144 | A reported line and column are the number of lines up to the position and one more than the characters of its line before it |
| FilterParser.ParseInput | backend/query_filter/parser.py:76-114 | The parser object, run from the start, returns what the grammar gives for the whole input: a tree or the same error at the same line and column |
| FilterParser.Parser.GetPosition | backend/query_filter/parser.py:134-144 | Line and column of the current position |
| FilterParser.Parser.MatchKeyword | backend/query_filter/parser.py:162-174 | A keyword in any case is consumed if it stands next and ends there |
| FilterParser.Parser.ParseExpr | backend/query_filter/parser.py:185-201 | Reads an expression one level deeper, refuses beyond 32 levels, and leaves the depth as it was |
| FilterParser.Parser.ParseOrExpr | backend/query_filter/parser.py:203-217 | Reads and-expressions joined by "or", leaving the position before what does not follow |
| FilterParser.Parser.ParseAndExpr | backend/query_filter/parser.py:219-233 | Reads not-expressions joined by "and" |
| FilterParser.Parser.ParseNotExpr | backend/query_filter/parser.py:235-243 | Reads any number of "not" and a primary |
| FilterParser.Parser.ParsePrimary | backend/query_filter/parser.py:245-253 | Reads a parenthesized expression or a comparison |
| FilterParser.Parser.ParseComparison | backend/query_filter/parser.py:255-290 | Reads a comparison and counts it, refusing more than 1024 |
| FilterParser.Parser.ParseIn | backend/query_filter/parser.py:292-314 | Reads a value set of at most 256 |
| FilterParser.Parser.ParseField | backend/query_filter/parser.py:316-344 | Reads dotted identifiers and refuses unknown fields |
| FilterParser.Parser.ParseIdentifier | backend/query_filter/parser.py:346-368 | Reads the longest identifier |
| FilterParser.Parser.ParseOperator | backend/query_filter/parser.py:370-407 | Reads a symbol or word operator, longest symbol first |
| FilterParser.Parser.ParseValue | backend/query_filter/parser.py:409-425 | Reads a string, number or timestamp |
| FilterParser.Parser.ParseStringLiteral | backend/query_filter/parser.py:427-461 | Reads a quoted string, resolving escapes, with its length limit |
| FilterParser.Parser.ParseNumberOrTimestamp | backend/query_filter/parser.py:463-478 | Prefers a timestamp where one stands |
| FilterParser.Parser.ParseNumber | backend/query_filter/parser.py:480-516 | Reads sign, digits, fraction and exponent as one exact decimal |
| FilterParser.Parser.ParseValueList | backend/query_filter/parser.py:518-528 | Reads values separated by commas |
| TokenBucket.Store.CheckRateLimit | backend/rate_limiter/token_bucket.py:50-105 | One run of the script on the stored hash gives the reply and the new hash and expiry of the step function |
| TokenBucket.TokensStayInBounds | backend/rate_limiter/token_bucket.py:55-81 | On every run the bucket holds between 0 and limit tokens |
| TokenBucket.WindowBound | backend/rate_limiter/token_bucket.py:55-81 | On every run, in every closed interval, admissions number at most limit plus the interval's length times limit/60 |
| TokenBucket.ExpiryInvisibleIff | backend/rate_limiter/token_bucket.py:100-102 | Expiry changes no reply of any run if and only if it is at least 60 seconds, so the deployed 120 are invisible |
| TokenBucket.RetryAfterIsExact | backend/rate_limiter/token_bucket.py:77-90 | After a denial, whatever denied calls intervene, a call d whole seconds later is admitted if and only if d >= retry_after; the value lies in 1 to 60 and the middleware's clamp does not change it |
| TokenBucket.ClampedIsNearest | backend/api_gateway/middleware/rate_limit.py:141-142 | The middleware's clamp gives the nearest value from a second to an hour |
| TokenBucket.RemainingIsExact | backend/rate_limiter/token_bucket.py:77-81 | Of any number of further calls at the same moment exactly `remaining` are admitted |
| TokenBucket.ResetAtIsExact | backend/rate_limiter/token_bucket.py:92-98 | `reset_at` is the first whole second from now on at which the bucket, left alone, is full |
| TokenBucket.ZeroLimitNeverAdmits | backend/rate_limiter/token_bucket.py:86-90 | With limit 0 every call of every run is denied with retry_after 60 |
| Robots.WildcardMatch | backend/crawler/robots.py:317-337 | The loop over the pieces returns whether the greedy matcher reaches its end, or the end of the path when anchored |
| Robots.PathMatchesCode | backend/crawler/robots.py:291-314 | The branches on "$" and "*" compute the match function the theorems are about |
| Robots.GreedyIsShortest | backend/crawler/robots.py:317-337 | Greedy matching fails exactly when no filling of the stars is a prefix of the path, and otherwise ends at the shortest one |
| Robots.PrefixPatternsMatch | backend/crawler/robots.py:291-314 | A pattern without "$" matches if and only if some filling of its stars is a prefix of the path |
| Robots.AnchoredPatternsMatch | backend/crawler/robots.py:302-307 | A pattern with "$" matches if and only if a filling equals the path and none equals a shorter prefix of it |
| Robots.AnchoredMisses | backend/crawler/robots.py:302-307 | A concrete path that a filling equals but the code does not match |
| Sse.Format | backend/api_gateway/sse.py:44-66 | The wire text of an event: its field lines, one data line for each line of the payload, and a blank line |
| Sse.Stream.Run | backend/api_gateway/sse.py:94-127 | What is sent is the events in order with a keepalive for each wait that ran out, and no event is fetched twice or dropped by one |
| Sse.ReadLines | sdks/typescript/src/index.ts:570-586 | The lines yielded over any chunks are the lines of the whole text |
| Sse.ParseSSELines | sdks/typescript/src/index.ts:588-617 | The line loop yields what the line state machine yields |
| Sse.StreamRoundTrip | sdks/typescript/src/index.ts:570-617 | For every list of events and every pattern of keepalives, the text that was sent is parsed to exactly the events sent, in order |
| Sse.Transmit | sdks/typescript/src/index.ts:561-617 | Running the server's stream, cutting its text into any chunks, reading lines and parsing them yields exactly the events sent, in order |
| Sse.AnyChunksAreCuts | sdks/typescript/src/index.ts:570-586 | Every way to cut a text into chunks is one of those |
| Sse.PayloadRoundTrip | sdks/typescript/src/index.ts:599-612 | With a serializer and parser that undo each other, type, id and payload arrive as they were |
| Sse.LinesMakeText | sdks/typescript/src/index.ts:570-586 | The lines of any text, joined again, are the text but for a line feed at its end, and none holds one |
| Sse.LinesMean | sdks/typescript/src/index.ts:588-617 | What any line does, whoever sent it: three fields with any value, blank lines that complete an event if a kind or data came, and lines that are ignored |
| Sse.TrimIs | sdks/typescript/src/index.ts:597-602 | A field's value is what stands between its leading and trailing blanks |
| Sse.ParseIntReads | sdks/typescript/src/index.ts:599 | An id is the integer its value begins with, behind a sign or none, whatever follows; none without a digit |
| Auth.TtlCache.Get | backend/auth/service.py:95-102 | A live entry is returned; an expired one is removed |
| Auth.TtlCache.Put | backend/auth/service.py:104-112 | An entry is added or overwritten in place, the oldest making room when the cache is full |
| Auth.AuthService.GetCandidates | backend/auth/service.py:420-429 | Rows of a live entry, or of the table, which are then cached |
| Auth.AuthService.Authenticate | backend/auth/service.py:187-311 | Header, prefix, first matching row, expiry and grace checks in order, refining the authentication step |
| Auth.AuthService.InvalidateCacheForPrefix | backend/auth/service.py:361-374 | Refines the invalidation step |
| Auth.KeyManagement.RotateKey | backend/auth/key_management.py:130-217 | Grace check, revocation of the tenant's unrevoked rows of the prefix, new row and invalidation, as seen by the notified service or any other |
| Auth.KeyManagement.CreateKey | backend/auth/key_management.py:219-267 | Refines the creation step |
| Auth.RunKeepsValid | backend/auth/service.py:83-118 | In every run every cached entry differs from the table only by rows created and revocations made since it was filled |
| Auth.AuthenticateJudges | backend/auth/service.py:252-311 | The reply depends only on the row the token is seen to lead to |
| Auth.RotatedKeyDies | backend/auth/service.py:292-305 | In every run a key rotated at T with grace G is not accepted after T + max(cache lifetime, G) |
| Auth.RotationLeavesOthers | backend/auth/key_management.py:168-180 | No row of another tenant or prefix, nor one already revoked, is changed by a rotation |
| Auth.BearerPresents | backend/auth/service.py:211-239 | The bearer scheme in any case presents exactly the token behind it |
| AuthReplies.PresentedIff | backend/auth/service.py:211-239 | A header presents a token if and only if it is the scheme in any case, a space, and the token with any space around it |
| AuthReplies.PrefixIff | backend/auth/service.py:126-142 | The prefix of a token is what stands before its first underscore, if that has 8 to 12 characters |
| AuthReplies.RepliesAreRight | backend/auth/service.py:252-311 | In every run a presented token is answered by the first row that has it among those it is looked for in, which is in the table: expired if and only if its expiry has passed, revoked if and only if not expired and its grace has passed, and otherwise accepted as that row's tenant and id; and it is invalid if and only if no such row has it |
| AuthReplies.CreatedKeyIsAnswered | backend/auth/key_management.py:219-267 | A created key, once no older entry hides it, is accepted as its tenant and id until the expiry it was given and rejected as expired after, in every continuation in which it is not revoked |
| AuthReplies.RotationEffect | backend/auth/key_management.py:130-217 | A rotation is refused for a grace outside a second to a day, finds no key if the tenant has no unrevoked row of the prefix, and otherwise revokes exactly those rows, adds the new one, and drops the prefix from the cache it notifies |
| AuthReplies.CacheAfterRequest | backend/auth/service.py:83-118 | A request that no fresh entry answers leaves the table's rows of its prefix as the newest entry, in place of an expired one, or of the oldest when 4096 others are cached; all others stay |
| AuthReplies.InvalidationEffect | backend/auth/service.py:114-118 | An invalidation removes the entry of its prefix and no other |
| Auth.GraceEndsOnTimeIff | backend/auth/key_management.py:112-115 | The old key is dead after T + G in every continuation if and only if no cached entry left by the rotation still shows it unrevoked past T + G |
| Auth.GraceEndsOnTime | backend/auth/key_management.py:206-208 | That is so for a notified service and for a cache lifetime of at most G |
| Auth.GraceOverrunExample | backend/auth/key_management.py:112-115 | A run from an empty table in which the documented end is missed: a key made, used and rotated at time 0 with one second of grace is accepted at time 60 |
| Auth.GraceIsHonouredIff | backend/auth/key_management.py:112-115 | The unexpired old key is accepted throughout [T, T+G] in every continuation if and only if no live entry hides it at T |
| Auth.OldKeysAreNotHidden | backend/auth/service.py:420-429 | A key created more than a cache lifetime ago is hidden by nothing |
| Auth.NewKeyWorksAtOnceIff | backend/auth/key_management.py:183-206 | The new key is accepted from T on in every continuation if and only if no live entry of its prefix is cached at T |
| Auth.NewKeyWorksAfterTtl | backend/auth/key_management.py:183-206 | Whatever was cached, it is accepted once more than a cache lifetime has passed |
| ResearchEvents.EventBuffer.Append | backend/research_agent/events.py:36-54 | Appends in order, refuses a number that is not higher, and records the time of a terminal event |
| ResearchEvents.EventBuffer.Replay | backend/research_agent/events.py:56-71 | The events with numbers above the given one, in order, or all |
| ResearchEvents.EventBuffer.CleanupExpired | backend/research_agent/events.py:85-101 | Removes exactly the jobs whose terminal event is older than the retention, and lists each once |
| ResearchEvents.EventEmitter.Emit | backend/research_agent/events.py:125-149 | Takes the next number and appends |
| ResearchEvents.RunKeepsValid | backend/research_agent/events.py:36-54 | In every interleaving of the two steps each buffer is strictly increasing and holds only issued numbers |
| ResearchEvents.ReplayIsRest | backend/research_agent/events.py:56-71 | A replay from the last id of a beginning of the log is the rest of the log |
| ResearchEvents.ClientHasPrefix | backend/research_agent/events.py:56-71 | In every run without cleanup of the job, what a client assembled over any broken connections is a beginning of the log |
| ResearchEvents.ReconnectCompletes | backend/research_agent/events.py:56-71 | A reconnection read to the end leaves the client with exactly the log |
| ResearchEvents.ConnectionDelivers | backend/research_agent/events.py:56-71 | A connection that drops after some events delivers exactly the next ones of the log |
| ResearchEvents.EndsAreNoted | backend/research_agent/events.py:51-54 | In every run an end is noted for exactly the jobs whose log holds a done or error event |
| ResearchEvents.EndedLogIsRemovedIff | backend/research_agent/events.py:85-101 | A log whose last event has come is removed by a cleanup, whole, if and only if more than the retention has passed since, whatever happens to other jobs |
| ResearchEvents.OpenLogIsKept | backend/research_agent/events.py:85-101 | In every run a log without a done or error event is never removed |
| ResearchEvents.OneEmitterIsConsecutive | backend/research_agent/events.py:125-149 | With one emitter no append is refused and numbers are consecutive, across cleanups |
| ResearchEvents.OneEmitterNumbersFromOne | backend/research_agent/events.py:125-149 | Without cleanup they are exactly 1 to n |
| ResearchEvents.NumbersAreAccountedFor | backend/research_agent/events.py:125-149 | In every interleaving every issued number is logged, pending or refused |
| ResearchEvents.RejectedIffOvertaken | backend/research_agent/events.py:44-49 | An append is refused if and only if the buffer holds a number as high |
| ResearchEvents.OvertakenIsRejected | backend/research_agent/events.py:36-54 | Of two pending events of a job, appending the later first loses the earlier |
| ResearchEvents.OvertakenFromStart | backend/research_agent/events.py:125-149 | A run from the start in which that happens |
| ResearchJob.BudgetTracker.Check | backend/research_agent/budget.py:61-90 | Steps, then duration, then tool calls, each stopping at its limit |
| ResearchJob.Executor.ExecuteStep | backend/research_agent/executor.py:154-306 | One tool call, then the result of the step's kind |
| ResearchJob.Executor.ExecutePlan | backend/research_agent/executor.py:73-152 | The loop ends as the walk over the plan does, with the same citations, chunks, counts and log |
| ResearchJob.ResearchService.ExecuteJob | backend/research_agent/service.py:274-400 | Final state, report, counters and the whole numbered log of the job, other jobs untouched |
| ResearchJob.ResearchService.Conclude | backend/research_agent/service.py:329-400 | What follows the plan: success, schema failure, budget stop or exception, each with its report and last event |
| ResearchJob.ResearchService.Rebuild | backend/research_agent/service.py:356-384 | The partial report is made of the citation and chunk events, in order |
| ResearchJob.OneEndAndItAgrees | backend/research_agent/service.py:281-400 | Every job logs one done or error event, last, agreeing with the final state, and the plan first unless planning failed |
| ResearchJob.BudgetsHold | backend/research_agent/budget.py:61-98 | Steps and tool calls never exceed their budgets, whatever the tools do |
| ResearchJob.RunsToTheEndIff | backend/research_agent/executor.py:93-152 | If nothing raises and time suffices, a plan completes if and only if it is within both budgets |
| ResearchJob.PartialReportIsAll | backend/research_agent/service.py:351-384 | On a budget stop the report rebuilt from the log equals what the executor had gathered, up to citation ids |
| ResearchReports.SuccessIsReported | backend/research_agent/executor.py:143-152 | A job succeeds if and only if it is planned, its plan runs to the end and its schema is met; its report is then whole, its text the log's chunk texts joined by blank lines or a fixed sentence if there are none, its citations those of the log in order, and its counters the steps completed and started in the log |
| ResearchReports.StopIsReported | backend/research_agent/service.py:351-384 | A job that a budget stops reports as partial what its log holds, with the same counters, and its last event names the budget that was spent, steps before time before calls, with its count and limit |
| ResearchReports.FailureIsReported | backend/research_agent/service.py:281-400 | A job fails if and only if planning fails, a step raises or its schema is not met; it then has no report, or an empty partial one once planned, counters of zero, and a last event with the message |
| ResearchReports.SchemaErrorNamesField | backend/research_agent/service.py:402-438 | A schema is met unless it is an object schema that requires a field the payload lacks, and the message names the first such field |
| ResearchReports.StepContribution | backend/research_agent/executor.py:154-306 | A retrieval adds its documents; a reading cites the beginning of each of the last five and quotes 100 characters of it, a line each; the others write a text only |
| ResearchReports.LogIsInOrder | backend/research_agent/executor.py:93-143 | The log of a planned job is the ids of its plan, then its steps in order, each with its id before and after its citations and one text, then the last event; only a step that raises is left open |
| ResearchJob.WalkFacts | backend/research_agent/executor.py:93-143 | However a plan ends, the log tells what was gathered with chunks numbered from 1, every citation is of a retrieved document within its text, and the plan ended at the first step that the budgets forbid or that raises |
| Answer.CitationTracker.ValidateAndAddCitation | backend/answer_engine/citations.py:62-133 | A citation is added if and only if its document is in the retrieval set and its offsets are valid |
| Answer.AnswerService.FindCitationMatch | backend/answer_engine/service.py:201-262 | The match of the last 30 characters in a source, unless the span is already cited or refused |
| Answer.AnswerService.DetectCitations | backend/answer_engine/service.py:175-199 | The new citations of a token, source by source |
| Answer.AnswerService.GenerateAnswer | backend/answer_engine/service.py:64-162 | The whole event stream for any tokens and any ending |
| Answer.CitationsAreLiteral | backend/answer_engine/service.py:201-262 | Every citation of a finished answer, though issued on a prefix, is a literal quotation from a result, of every result it names when equal keys carry equal text, and none is repeated |
| Answer.CitedIffSupported | backend/answer_engine/service.py:175-262 | After each token a document is cited for the latest piece if and only if one of its results holds that piece |
| Answer.OneTerminalLast | backend/answer_engine/service.py:110-162 | One terminal event, last; tokens in order numbered from 0; the done event has the concatenated tokens and all citations sent; no results give one error |
| Answer.EndingIsTold | backend/answer_engine/service.py:136-162 | The last event is a timeout, a model error or an internal error if and only if the stream ended so, and no sources are reported if and only if there are no results |
| Answer.TableIsLast | backend/answer_engine/citations.py:49-56 | The retrieval set has each key of the results, with the last result of that key |
| Answer.CitationsFollowTokens | backend/answer_engine/service.py:118-132 | A citation ends where the tokens sent before it end |
| SessionMemory.SessionMemory.AddCitation | backend/session_store/models.py:86-88 | Appends, evicting the oldest of 50 |
| SessionMemory.SessionMemory.AddDocId | backend/session_store/models.py:90-101 | Moves to the end or appends, evicting the oldest of 20 |
| SessionMemory.MemoryIsRecent | backend/session_store/models.py:59-106 | After any operations the memory is the last 50 citations and the last 20 ids of the history reduced to last occurrences, since the last clearing |
| SessionMemory.EvictionAgrees | backend/session_store/models.py:90-101 | For any capacity, eager eviction agrees with an unbounded move-to-end list |
| SessionMemory.LatestMovesToEnd | backend/session_store/models.py:90-101 | Reducing a history to last occurrences is moving each visited id to the end |
| Fusion.ReciprocalRankFusion | backend/retriever/hybrid.py:37-94 | The dictionary loops, normalization, sort and slice give the specified list for any rankings, duplicates included |
| Fusion.FusedFacts | backend/retriever/hybrid.py:59-94 | Each listed document appears once, with its normalized score and version, strictly ordered by (-score, id, version) |
| Fusion.ScoresAreNormalized | backend/retriever/hybrid.py:78-94 | Scores lie in (0, 1] and the first is 1 |
| Fusion.DominanceIsStrict | backend/retriever/hybrid.py:63-74 | A document ranked no worse in both lists and better in one scores strictly higher |
| Fusion.BothBeatsOne | backend/retriever/hybrid.py:63-74 | Ranks up to k + 1 in both lists (61 by default) beat every document found in one list only |
| Fusion.BothCanTie | backend/retriever/hybrid.py:63-74 | At rank k + 2 in both it only ties with the first of one list, so the bound is sharp |
| Fusion.HigherComesFirst | backend/retriever/hybrid.py:91-94 | A higher raw score comes earlier in every returned slice |
| Fusion.ReturnedAreTheFirst | backend/retriever/hybrid.py:91-94 | As many documents are returned as were asked for, or as there are distinct ids if those are fewer, and none that is left out precedes one that is returned by score and id; a negative number leaves out so many |
| Fusion.VersionIsTheLastOrFirst | backend/retriever/hybrid.py:59-76 | A document's version is the one of its last place in the neural ranking, or of its first in the keyword ranking if it is not in the neural one |
| Highlights.FindMatches | backend/answer_engine/highlights.py:57-70 | The searching loops collect the occurrences of each term in turn |
| Highlights.MergeOverlapping | backend/answer_engine/highlights.py:128-142 | The in-place merge computes the recursive merge |
| Highlights.ExpandToContext | backend/answer_engine/highlights.py:145-170 | Each span is widened to word boundaries |
| Highlights.ExtractHighlights | backend/answer_engine/highlights.py:17-92 | All branches: empty inputs, no terms, fallback, and the first widened spans |
| Highlights.MatchesIff | backend/answer_engine/highlights.py:59-70 | A span is collected if and only if it is an occurrence, overlapping ones included |
| Highlights.EveryWordIsFound | backend/answer_engine/highlights.py:120-125 | Every word of the query between whitespace is among the terms' words |
| Highlights.FoundIsWord | backend/answer_engine/highlights.py:120-125 | And every such word is one |
| Highlights.MergeKeepsCoverage | backend/answer_engine/highlights.py:128-142 | Merging sorted spans keeps the covered positions one by one and leaves spans that neither overlap nor touch |
| Highlights.WidenFacts | backend/answer_engine/highlights.py:145-170 | Widening only enlarges within the text and stops at the nearest boundaries beyond the context |
| Highlights.EveryOccurrenceIsCovered | backend/answer_engine/highlights.py:57-79 | Every occurrence of every term of two or more characters lies in one merged span, and nothing else is covered |
| Highlights.HighlightsShowOccurrences | backend/answer_engine/highlights.py:77-92 | At most five valid spans, each holding an occurrence, and together all of them unless more were merged than may be shown |
| Highlights.FirstSpansAreShown | backend/answer_engine/highlights.py:77-92 | As many spans are returned as were merged, were asked for, or five, whichever is fewest, and they are the first ones, widened |
| Highlights.NothingToShow | backend/answer_engine/highlights.py:42-55 | Nothing is returned if and only if the query or text is empty, no span was asked for, or no word has two characters |
| Highlights.FallbackIffNoOccurrence | backend/answer_engine/highlights.py:72-75 | The fallback span is returned if and only if no term occurs |
| Metering.DurableMeteringBuffer.BufferEvent | backend/rate_limiter/metering_buffer.py:77-93 | Bounded append and the audit at four fifths, once |
| Metering.DurableMeteringBuffer.Flush | backend/rate_limiter/metering_buffer.py:95-149 | An uninterrupted flush stores and removes a first-in prefix up to the first unconfirmed insert and resets the mark when empty |
| Metering.MeteringService.EmitMeteringEvent | backend/rate_limiter/metering.py:90-159 | Only 2xx responses; insert, or buffer when the insert reports an error |
| Metering.DedupKeyIsInjective | backend/rate_limiter/metering.py:77-83 | Two requests never share a key |
| Metering.EmitEffect | backend/rate_limiter/metering.py:90-159 | A response is billed with its own data if and only if its status is from 200 to 299; its event is inserted once unless that fails, and buffered unless that is confirmed, the oldest making room |
| Metering.EveryBillableEventIsKeptIff | backend/rate_limiter/metering_buffer.py:110-149 | In every run, with any number of flushes, whose billable requests have ids of their own and after which no flush is under way, each billable event's key is stored, buffered or was dropped at capacity if and only if no confirmed insert popped an event that was neither the one inserted nor kept elsewhere and no failed one gave up an event kept nowhere else |
| Metering.AllKeptIffLossFree | backend/rate_limiter/metering_buffer.py:110-149 | The same from any point of a run on, counting events in the hands of a flush as kept |
| Metering.EveryBillableEventIsKept | backend/rate_limiter/metering.py:114-159 | In every run with one flush at a time and no append that overflows the buffer during it, each billable event's key is stored, buffered or was dropped at capacity |
| Metering.OverflowDuringFlushLoses | backend/rate_limiter/metering_buffer.py:112-142 | A run in which such an append loses an event |
| Metering.OverlappingFlushesLose | backend/rate_limiter/metering_buffer.py:112-142 | A run in which two overlapping flushes lose an event without any overflow |
| Metering.OneRowPerRequest | backend/rate_limiter/metering.py:128-147 | In every run the table has at most one row for a request, and only emitted billable ones |
| Metering.AuditFiresOnce | backend/rate_limiter/metering_buffer.py:77-149 | Between flushes that empty the buffer the audit fires at most once, exactly when the mark is set |
| Metering.NearlyFullIsAudited | backend/rate_limiter/metering_buffer.py:89-93 | In every run a buffer at four fifths has been audited |
| Metering.AuditFiresIff | backend/rate_limiter/metering_buffer.py:77-93 | The audit fires for an unconfirmed billable event, if it has not fired yet and the buffer is at four fifths after the append, and for nothing else |
| Metering.UndisturbedFlush | backend/rate_limiter/metering_buffer.py:95-149 | The interleaved steps of a flush that nothing disturbs do what the uninterrupted flush does |

## Left out

- FilterParser.Parser.ParseNotExpr: Python's recursion limit on long chains of `not` is not modelled.
- FilterExamples.NumeralRoundTrip: numbers beyond the range of a double are not covered, because the parser makes them infinity or zero.
- FilterParser.ParseInput: error texts are not modelled, only codes, lines and columns.
- TokenBucket.Store.CheckRateLimit: key names, script caching and the client's reply parsing are not modelled.
- Sse.Stream.Run: cancellation by a disconnecting client and exceptions of the event generator are not modelled, nor is UTF-8.
- Auth.AuthService.Authenticate: the audit event of a failure is not modelled.
- Auth.TtlCache.Put: the capacity is the deployed 4096; a cache of capacity zero, which the code cannot fill, is not modelled.
- ResearchJob.ResearchService.ExecuteJob: the structured payload attached for a schema is represented only by the fields the schema check looks for; retrieval inside a step is a parameter.
- Answer.AnswerService.GenerateAnswer: the prompt and a consumer that stops reading early are not modelled.
- Fusion.ReciprocalRankFusion: the constant k is a natural number, as everywhere it is used; a negative one can divide by zero.
- Highlights.ExtractHighlights: case folding that changes the length of non-ASCII text is not modelled.
- HTTP routes, middleware, WebSockets, MCP servers, schemas and SDK request wrappers: plumbing over libraries that are not part of this model.
- PostgreSQL, Redis, Kafka, object storage, OpenSearch and model calls: each is a map, a table, an atomic step or an arbitrary result.
- The warm search cache and the neural retriever's choice of versions.
- Parsing of robots.txt files and Allow rules, which the code discards.
- Summaries, PII detection, provenance heuristics, HTML cleaning, BM25 and cosine scores: library patterns and floats without a clean specification.
- Audit storage, tenant deletion, opt-out, scheduling, pipelines, configuration and observability: short branches or direct database calls.
- Thread pools, wall-clock timeouts and task cancellation: outcomes of steps are arbitrary instead.
