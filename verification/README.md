# A verified model of HAS

HAS is a Go framework of services, plugins and connectors. This project models, in Dafny, the parts of
it whose correctness is not visible from reading one function, and proves what they promise:

- **The wire codec** of service requests and responses (`core/server.pb.go`): `Bits`, `Varint`,
  `VarintDigits`, `Skip`, `ServerPb` (the meaning of the two messages), `ServerPbCodec` (the generated methods,
  which marshal backwards into a buffer and parse forwards), `ServerPbLaws`, `ServerPbFields` (what each field
  of a message holds) and `ServerPbRoundTrip`. It implements the
  Protocol Buffers Encoding specification, sections "Base 128 Varints", "Message Structure", "Groups" and
  "Last One Wins". `int` is 64-bit with wrap-around, field numbers are truncated to 32 bits as in the code.
- **The data service** (`services/hdatasvs`): `Conditions`, `ConditionRoundTrip` and `ConditionTexts`
  (condition texts and what they ask of a row), `MinedValues` (which value a filter gives a field),
  `Filters` (filter trees and the WHERE compiler), `WhereSql` (what SQL reads in the compiled text, section
  8.12, search condition, of ISO/IEC 9075:1992), `RawFilters` (what the request's own tree says), `Routing`
  (which shard table a filter or an object names), `TableNames` (when names tell objects apart), `Alternatives`
  (the ways to satisfy a filter), `RoutingLimits` (when exactly the query reads the right table),
  `RoutingFailures` (filters for which it does not), `DataService` (Create, Query and Update over shard tables).
  `GoStrings` holds the string functions used.
- **The logger** (`common/hlogger`): `AsyncLogger` (producers, bounded channel, worker, signals, WaitGroup
  and object pool as one step system), `FileRotation` (the rotating file writer), `RotationRuns` and
  `RotationDays` (any number of writers inside `WriteMsg` at once).
- **The session store** (`services/hsessionsvs`): `Sessions`.
- **Account lockout** (`services/hapauthsvs`): `Lockout`.

`Wrappers` holds the option type they share.

How it is built: code that changes things step by step is a method or a class whose contract ties the new
state to a function of the old one; the laws are then proved about those functions, or about every run of
a step system. Inputs and effects from outside (which database or file call succeeds, the clock, the
collation of the database, `strconv.ParseFloat`, fmt's `%v`) are parameters, so the laws hold for all of
them. Inlined copies of one loop in the generated codec (the varint loop, the length loop, the skip
branch) are one method here, and the copied branches of `parseCondition` are one function over the ordered
table `ORDER`.

What the code does where one might expect otherwise, and the model follows the code:

- A filter group without conditions is dropped together with all its subfilters. `RawFilters.CompleteIsExact`
  says for which requests nothing is lost by that, `RawFilters.RootIsLost` gives one that then selects every row.
- `or` joins the own conditions, taken together, with the subfilters; the own conditions are always
  joined by AND.
- A list of texts must have exactly two elements, for IN as well as for BETWEEN, and a list operator with
  a blank right-hand side makes the converter index an empty string (`Conditions.CrashesOn` says exactly
  when, `ConditionRoundTrip.BlankListCrashes` gives one).
- `getFieldValuesSetByFilters` ignores `or`, so a query with OR over subfilters can be sent to a table that
  a satisfying row is not in (`RoutingFailures.OrLosesRows`, `RoutingFailures.ExclusiveLosesRows`). For filters
  of equalities `RoutingLimits.EqualityRouting` says exactly when, for other operators
  `RoutingLimits.RoutingExact`.
- Table names join keys and texts by "_" without escaping, so different objects can share a table
  (`TableNames.Collision`); `TableNames.NamesInjective` says for which texts they do not.
- The errors of the eviction loop in `CreateToken` are only logged, so a failing call lets a user exceed the
  cap (`Sessions.CapExceeded`); `Sessions.SessionCap` says exactly when it holds.
- The operators of condition texts are looked for in a fixed order over the whole text, so a value can hide the
  operator that was written (`ConditionRoundTrip.HiddenOperator`); `ConditionRoundTrip.RoundTrip` says exactly
  when it is read back.
- A goroutine that checked a daily file before midnight writes after another has rotated it, so a file can hold
  messages of another day (`RotationDays.DaysMix`); `RotationDays.DayBound` says how many.
- When nothing free is found among 999 archive names, rotation fails and the live file keeps growing
  (`FileRotation.RotationStuck`, `FileRotation.StuckGrows`); the bound on the file is about files on which no
  rotation has failed.

## Model

| member | source | states |
|---|---|---|
| Varint.DecodeVarint | core/server.pb.go:363-376 | the loop that ORs seven-bit groups into a uint64 computes the arithmetic meaning of the bytes: overflow after ten groups, end of input, or the sum of the groups |
| Varint.OrShl | core/server.pb.go:372-372 | while fewer than 64 bits are read the OR of the next group is its addition, and the value stays a uint64 |
| Varint.EncodeVarint | core/server.pb.go:289-299 | writes exactly the minimal encoding, ending at the given offset, and changes no other byte |
| Varint.SovIsEncodingLength | core/server.pb.go:351-353 | the bit-length formula is the length of the minimal encoding |
| Varint.SovRange | core/server.pb.go:351-353 | every uint64 takes one to ten bytes |
| Varint.DecodeEncoding | core/server.pb.go:289-299 | decoding an encoding gives the value back and stops right behind it, wherever it stands |
| Varint.DecodeBound | core/server.pb.go:363-376 | whatever is decoded is a uint64, and its minimal encoding is no longer than the bytes read: no shorter encoding exists |
| Varint.OverlongRejected | core/server.pb.go:364-366 | a terminated varint is accepted exactly when it has at most ten bytes; longer ones overflow |
| Varint.TruncatedRejected | core/server.pb.go:367-369 | input that ends inside a varint is an unexpected end of input, unless ten continuation bytes overflow first |
| Varint.DecodeRelocate | core/server.pb.go:363-376 | a successful decode depends only on the bytes it consumed |
| VarintDigits.EncodingDigits | core/server.pb.go:289-299 | byte k of an encoding holds bits 7k to 7k + 6 of the number, and its top bit is set exactly when more bytes follow |
| VarintDigits.DecodeIsBase128 | core/server.pb.go:363-376 | at most ten terminated bytes, minimal or not, are read as their base-128 number, least significant first, cut to 64 bits |
| Skip.SkipServer | core/server.pb.go:681-758 | total on every byte string with 64-bit wrapping indexes, and computes the depth-counting meaning |
| Skip.SkipIsGrammar | core/server.pb.go:681-758 | skipServer accepts n bytes exactly when they are one field of the recursive grammar: groups nest and close, nothing is left over (group end numbers are not compared, as in the code) |
| Skip.SkipRelocate | core/server.pb.go:681-758 | a successful skip reads only the bytes it returns |
| Skip.SkipFailures | core/server.pb.go:681-758 | which error a field that cannot be skipped gives: end of input, overflow, illegal wire type, unopened group, negative length |
| Skip.SkipWidths | core/server.pb.go:681-758 | eight bytes for wire type 1, four for 5, the announced length for 2, up to the end tag for 3 |
| ServerPbCodec.PutBytes | core/server.pb.go:208-214 | payload, length and tag written backwards read forwards as tag, length, payload |
| ServerPbCodec.PbServiceRequest.Size | core/server.pb.go:300-327 | Size is the length of the message's bytes |
| ServerPbCodec.PbServiceRequest.MarshalToSizedBuffer | core/server.pb.go:198-236 | the end of the slice holds the forward concatenation of the non-default fields and the unrecognised bytes, the rest of the buffer is untouched, and the count returned is its length |
| ServerPbCodec.PbServiceRequest.MarshalTo | core/server.pb.go:193-196 | the front of the buffer holds exactly the message, everything behind it is untouched |
| ServerPbCodec.PbServiceRequest.Marshal | core/server.pb.go:183-191 | the buffer of Size bytes is filled completely with the message's bytes |
| ServerPbCodec.PbServiceRequest.Unmarshal | core/server.pb.go:357-540 | total on every byte string: no index or slice out of bounds with wrapped indexes; message and error are those of the field-by-field meaning, which ServerPbFields.UnmarshalReads spells out |
| ServerPbCodec.PbServiceResponse.Size | core/server.pb.go:328-349 | Size is the length of the message's bytes |
| ServerPbCodec.PbServiceResponse.MarshalToSizedBuffer | core/server.pb.go:253-287 | as for requests, with the bool field written only when true |
| ServerPbCodec.PbServiceResponse.Unmarshal | core/server.pb.go:541-680 | as for requests, with the bool field true exactly for a non-zero varint |
| ServerPbLaws.FieldSteps | core/server.pb.go:357-540 | an allowed field makes one round of the loop succeed with that field's effect and stop behind it, whatever stands around it |
| ServerPbLaws.StepRelocate | core/server.pb.go:357-540 | a successful round depends only on the bytes it consumed |
| ServerPbLaws.Concatenation | core/server.pb.go:357-540 | after an accepted a, a ++ b is accepted exactly when b is accepted into the resulting message, with the same outcome, unrecognised bytes included |
| ServerPbLaws.AcceptsIsGrammar | core/server.pb.go:357-540 | the accepted byte strings are exactly the sequences of balanced fields with positive numbers and the declared wire types, and parsing applies them in order |
| ServerPbFields.LastOneWins | core/server.pb.go:397-540 | after an accepted input each of name (1), slot (2), encoding (3), params (4), or success (1), message (2), data (3), is the body of the last field with that number, replacing what was there, and its old value if there is none; success is whether the last varint is non-zero |
| ServerPbFields.UnmarshalReads | core/server.pb.go:357-540 | whatever the input, the longest front of allowed fields is read and the message holds what they make of it, also on an error; there is no error exactly when that is all |
| ServerPbFields.TagErrors | core/server.pb.go:380-397 | end-group tag, then field numbers that are zero or negative as int32, then wrong wire types, each with its own error |
| ServerPbFields.LengthErrors | core/server.pb.go:399-424 | lengths or ends that are negative as 64-bit integers are invalid, ends past the input are an unexpected end |
| ServerPbFields.MarshalledBytes | core/server.pb.go:198-236 | the literal bytes of small messages: tags, lengths, payloads in field order, default values left out |
| ServerPbRoundTrip.RoundTrip | core/server.pb.go:198-236 | Unmarshal of Marshal is the message exactly when its unrecognised bytes are balanced unknown fields, in particular when there are none |
| ServerPbRoundTrip.Normalisation | core/server.pb.go:357-540 | for every accepted byte string the re-marshalled message is no longer than the input and parses to the same message, unknown fields byte for byte |
| GoStrings.SplitJoin | utils/hconverter/convert.go:184-184 | splitting at commas undoes joining with commas |
| GoStrings.AtoiItoa | utils/hconverter/convert.go:45-55 | every int64 is read back from its decimal text |
| GoStrings.AtoiReads | utils/hconverter/convert.go:45-55 | one optional sign and at least one digit within int64, nothing else |
| GoStrings.TrimSplits | services/hdatasvs/service.go:372-400 | trimming takes exactly the blanks at both ends |
| Conditions.String2StringArray | utils/hconverter/convert.go:179-195 | the appending loop gives the trimmed parts of a bracketed pair |
| Conditions.String2NumberArray | utils/hconverter/convert.go:147-164 | the appending loop gives all parsed parts, or fails if one does not parse |
| Conditions.AcceptedIsShaped | services/hdatasvs/service.go:372-791 | every accepted condition has a field of the map and a value typed for its operator: two for BETWEEN, a non-empty list for IN |
| Conditions.CrashesOn | utils/hconverter/convert.go:125-195 | the parser indexes an empty string exactly for a list operator on a text or number field with a blank operand |
| ConditionRoundTrip.FreeIsClear | services/hdatasvs/service.go:372-791 | texts without an operator that is looked for no later, whose ends do not complete the one between them ("==" behind no symbol, "<" and ">" before no "="), are clear: any value ending in "!" or "=" is fine |
| ConditionRoundTrip.OperatorFound | services/hdatasvs/service.go:372-791 | the fixed search order picks the operator that was written, where it was written, exactly when each side is clear: no operator of the same or an earlier place starts in the left text, and none of an earlier place occurs from the operator on |
| ConditionRoundTrip.RoundTrip | services/hdatasvs/service.go:372-791 | a printed condition is parsed back to exactly its field, operator and value exactly when both sides are clear |
| ConditionRoundTrip.AnyCase | services/hdatasvs/service.go:372-374 | operators in lower or mixed case are parsed like the upper-case ones |
| ConditionTexts.OrderTexts | services/hdatasvs/service.go:372-530 | for clear sides "<", ">", "<=" and ">=" hold on a row by the order of the database, on the column of the key |
| ConditionTexts.EqualityTexts | services/hdatasvs/service.go:430-555 | "==" and "!=" compare texts, numbers and truth values; a truth value is true for "true" in any case and false for anything else |
| ConditionTexts.TextListTexts | services/hdatasvs/service.go:556-682 | " IN ", " !IN ", " BETWEEN " and " !BETWEEN " with a pair of texts |
| ConditionTexts.NumberListTexts | services/hdatasvs/service.go:556-682 | the same with numbers, any number of them for " IN " |
| ConditionTexts.MatchingTexts | services/hdatasvs/service.go:683-791 | " LIKE ", " HAS_PREFIX ", " HAS_SUFFIX " and their negations match the trimmed text with the wildcard where the form wants it |
| ConditionTexts.PlainIsClear | services/hdatasvs/service.go:372-791 | texts without blanks and symbols are clear around all sixteen operators |
| ConditionRoundTrip.HiddenOperator | services/hdatasvs/service.go:372-791 | "k == a>=b" for a text field k is rejected: ">=" is looked for first |
| ConditionRoundTrip.BlankListCrashes | utils/hconverter/convert.go:179-195 | "k IN " for a text field k makes the converter index an empty string |
| Filters.ParseRawFilter | services/hdatasvs/service.go:2075-2099 | the two loops and the recursion compute the parsed tree, first failure first |
| Filters.FilterFails | services/hdatasvs/service.go:2075-2099 | a filter is accepted exactly when all its conditions and subfilters are, own conditions first; otherwise it fails as the first of them does |
| Filters.BuildWhereClause | services/hdatasvs/service.go:170-291 | no type assertion fails on a renderable tree, and the loops compute the compiled clause |
| WhereSql.BareFilters | services/hdatasvs/service.go:264-290 | a filter without conditions and subfilters leaves no text, one with a single subfilter that one in parentheses |
| Filters.ParsedIsWellFormed | services/hdatasvs/service.go:2075-2099 | every accepted tree has conditions at every node, each typed for its operator |
| Filters.WellFormedIsRenderable | services/hdatasvs/service.go:185-254 | such trees satisfy every type assertion of the compiler |
| WhereSql.AtomMeans | services/hdatasvs/service.go:185-254 | each rendered atom has as many marks as values and, with them bound in order, says what its condition says |
| WhereSql.ParensFactor | services/hdatasvs/service.go:286-290 | a parenthesised join of factors is one factor in any context, so AND binding tighter than OR cannot regroup it |
| WhereSql.Precedence | services/hdatasvs/service.go:264-290 | in SQL as modelled AND binds tighter than OR, parentheses override it, and leftover tokens or values are refused |
| WhereSql.CompiledMeansFilter | services/hdatasvs/service.go:170-291 | SQL reads the whole compiled text, uses every value once from left to right, and gives the filter's meaning on every row |
| WhereSql.LikeForms | services/hdatasvs/service.go:225-248 | for texts without wildcards and backslashes LIKE, HAS_PREFIX and HAS_SUFFIX are containment, prefix and suffix |
| WhereSql.Wildcards | services/hdatasvs/service.go:225-248 | "_" stands for one character, "%" for any text |
| RawFilters.ParsedMeansKept | services/hdatasvs/service.go:2075-2099 | on every row the parsed tree says what the request's groups with own conditions under such groups say; nil says nothing |
| RawFilters.CompleteIsExact | services/hdatasvs/service.go:2075-2099 | dropping groups without own conditions leaves the meaning of the request as it is, whatever its conditions say, exactly when no such group has conditions below it |
| RawFilters.AcceptedMeansRequest | services/hdatasvs/slots.go:377-403 | whatever parseRawFilter accepts compiles, and SQL selects by it the rows on which what is kept of the request holds; for complete requests those on which the request holds |
| RawFilters.RootIsLost | services/hdatasvs/service.go:2077-2098 | a request whose root has no own conditions but a subfilter k == 1 is parsed to nil, though it is false on rows with another k |
| Routing.GetFieldValuesSetByFilters | services/hdatasvs/service.go:2043-2073 | the loops over conditions, subfilters and maps compute the mined values, later ones overriding |
| Routing.MinedIsMentioned | services/hdatasvs/service.go:2049-2057 | every mined value comes from an equality of the tree |
| MinedValues.MinedIsLast | services/hdatasvs/service.go:2043-2073 | a field gets the value of its last equality in the tree, own conditions before subfilters, and none without one |
| Routing.ForcedIsCarried | services/hdatasvs/service.go:2043-2073 | a row that satisfies a filter carries every value the filter forces |
| Routing.MinedIsCarried | services/hdatasvs/service.go:2043-2073 | without OR over subfilters a satisfying row carries every mined value |
| Routing.CheckTableName | services/hdatasvs/utils.go:55-80 | the loop computes the shard name, and fails on a missing value |
| TableNames.ShardTextIs | services/hdatasvs/utils.go:66-81 | integers in decimal, floats rounded to the nearest integer and ties to even, texts as they are, other kinds by "%v"; wrong types fail |
| TableNames.NameIsMade | services/hdatasvs/utils.go:60-82 | a name is made exactly when every naming field has a value with a text |
| TableNames.NameSpelled | services/hdatasvs/utils.go:81-81 | the name is the prefix, then "_", key and text |
| Routing.SameShardText | services/hdatasvs/utils.go:66-75 | the integer of a filter and the JSON number of an object print the same shard text within 2^53 |
| Routing.ConjunctiveIsRoutable | services/hdatasvs/service.go:2043-2073 | filters without OR over subfilters force everything that is mined from them |
| Routing.RoutingSound | services/hdatasvs/slots.go:385-396 | the table Query reads for a filter that forces what is mined is the table Create wrote every satisfying row to |
| TableNames.NamesInjective | services/hdatasvs/utils.go:55-80 | objects share a table exactly when they have the same text in every naming field, if no text can run into the key behind it: none holds "_", or the key holds none and no text holds "_" and the key; decimal numbers never do |
| TableNames.NamesDiffer | services/hdatasvs/utils.go:55-80 | objects whose texts differ in exactly one naming field are in different tables, whatever the texts |
| TableNames.Collision | services/hdatasvs/utils.go:81-81 | two objects with two text keys that share a table |
| Alternatives.WaysMean | services/hdatasvs/service.go:256-291 | a filter holds exactly when all conditions of one of its alternatives hold: own conditions and subfilters united under OR, combined pairwise under AND |
| Alternatives.ForcedInEveryWay | services/hdatasvs/service.go:2043-2073 | a filter forces field = v exactly when each of its alternatives asks for it |
| RoutingLimits.RoutingExact | services/hdatasvs/slots.go:385-396 | any operators: Query reads the table of every stored satisfying row exactly when every alternative that a stored row satisfies equates every naming field, with values that name that table; conditions other than equalities are taken not to decide a naming field |
| RoutingLimits.EqualityRouting | services/hdatasvs/service.go:2043-2073 | the same for filters of equalities without any assumption, with any number of values for a column: the alternatives that count are those with one value in each column |
| RoutingLimits.PinnedRouting | services/hdatasvs/service.go:2043-2073 | with integer naming fields, a text at most last: sound exactly when each such alternative asks for the mined value of every naming field |
| RoutingLimits.RoutableIsPinned | services/hdatasvs/service.go:2043-2073 | a filter forces all mined values exactly when every alternative, those no row satisfies included, asks for them |
| RoutingFailures.OrLosesRows | services/hdatasvs/service.go:2059-2070 | "k == 2 or x == 5": a stored satisfying row is in another table than the one queried, and by the exact condition routing is unsound |
| RoutingFailures.ExclusiveLosesRows | services/hdatasvs/service.go:2059-2070 | the same for "(k == 1 and x == 1) or (k == 2 and x == 2)", whose alternatives exclude each other |
| DataService.Service.Create | services/hdatasvs/slots.go:24-93 | whatever the values, an object is stored exactly in the table its values name, or not at all; every row stays placed if the row carries the naming values exactly |
| DataService.Service.Update | services/hdatasvs/slots.go:235-286 | accepted exactly for a filter that fixes the primary key and names a table; the meant rows of that table get the new values in their columns, other columns, rows and tables stay; for routable filters the tables are, row by row, what patching all of them gives; rows stay placed unless a naming column is set |
| DataService.Service.UpdateNeedsKey | services/hdatasvs/slots.go:241-262 | the primary key counts as fixed exactly when some condition of the tree is an equality of it |
| DataService.Service.Query | services/hdatasvs/slots.go:373-490 | the answer is the subsequence of the routed table that the filter means, and for routable filters no other table holds such a row: what one unsharded table would give, each row as often as it is stored |
| DataService.MatchingCounts | services/hdatasvs/slots.go:373-490 | every stored row that the filter means is answered as often as it is stored, no other row at all |
| DataService.MatchingAppends | services/hdatasvs/slots.go:373-490 | rows are answered in the order they are stored |
| AsyncLogger.InvStep | common/hlogger/log.go:283-342 | every step of producers, worker and caller keeps ownership, order and handshake |
| AsyncLogger.OneOwner | common/hlogger/log.go:162-170 | in every reachable state each message object is in exactly one of pool, producer, channel, worker, and the WaitGroup counts 0 or 1 |
| AsyncLogger.WrittenIsPrefix | common/hlogger/log.go:319-342 | what is written is always a prefix of what the producers were asked to log, in the order of sending |
| AsyncLogger.SentIsLogged | common/hlogger/log.go:283-288 | in every run each entry sent is the one its producer was last asked to log, though message objects are reused |
| AsyncLogger.NothingLeaks | common/hlogger/log.go:283-342 | in every run each message object that was not collected is in the pool, queued, or in somebody's hand |
| AsyncLogger.LogsOnce | common/hlogger/log.go:283-288 | an undisturbed call puts exactly its entry into the channel and leaves the producer as it was |
| AsyncLogger.FlushBarrier | common/hlogger/log.go:436-444 | when Flush returns every message logged before the call has been written, once and in order, and the outputs were flushed after that, under every interleaving |
| AsyncLogger.CloseDrains | common/hlogger/log.go:447-460 | when Close returns everything ever logged has been written, and the outputs were destroyed after all that had been logged then was written |
| AsyncLogger.NoDeadlock | common/hlogger/log.go:436-486 | while a caller is inside Flush or Close, the worker or the caller can move |
| AsyncLogger.ProducersMove | common/hlogger/log.go:283-288 | a producer can go on, or the channel holds its full capacity and worker or caller can move |
| AsyncLogger.WorkDecreases | common/hlogger/log.go:471-486 | every such move uses up work that only a send or a call can add |
| AsyncLogger.CallReturns | common/hlogger/log.go:436-486 | in every run, while producers pause worker and caller take at most 6 * capacity + 32 steps, and when they can take no more nobody is inside Flush or Close |
| FileRotation.FileLogWriter.DoRotate | common/hlogger/file.go:235-288 | every path of rotation, failed calls included, leaves the specified disk, counters and verdict |
| FileRotation.FileLogWriter.FindNumber | common/hlogger/file.go:249-252 | the loop finds the first free number up to 999 |
| FileRotation.FileLogWriter.StartLogger | common/hlogger/file.go:103-113 | reopening creates or continues the live file and sets size, date and line counters |
| FileRotation.FileLogWriter.WriteMsg | common/hlogger/file.go:123-153 | a lone writer rotates if needed and then appends, reporting whether it did; a failed write may leave the front of its message and is not counted |
| FileRotation.DueRotates | common/hlogger/file.go:115-153 | a full file, or one of another day, is archived under the next free name by the message's date or the file's, and the message is alone in the new file |
| FileRotation.NotDueAppends | common/hlogger/file.go:115-153 | a file under its limits on its own day only grows by the message, and is counted |
| FileRotation.RotationVerdict | common/hlogger/file.go:235-288 | rotation succeeds exactly when every call does and a name is free; if reopening fails the file stays closed |
| FileRotation.ReopenedCounts | common/hlogger/file.go:169-189 | reopening a file of whole messages continues it with its size, its number of messages and today's date |
| FileRotation.FailedStart | common/hlogger/file.go:103-189 | which counters a start leaves when opening, stat or counting fails |
| FileRotation.RotatedKeeps | common/hlogger/file.go:235-288 | a rotation, whatever fails in it, keeps the history and touches no archive |
| FileRotation.RotationStuck | common/hlogger/file.go:245-264 | rotation finds no free name exactly when the live file is there and every name it tries is taken, and then changes nothing |
| FileRotation.StuckGrows | common/hlogger/file.go:123-153 | on such a disk the live file takes every further message, whatever the limits |
| RotationRuns.NothingLost | common/hlogger/file.go:123-153 | in every run archives in rotation order and then the live file are the initial content and then what the writes left, in order: whole messages where success was reported, at most their front where not |
| RotationRuns.ArchivesStay | common/hlogger/file.go:249-277 | no archive is ever overwritten |
| RotationRuns.FileBound | common/hlogger/file.go:115-153 | with N writers a file opened by rotation holds at most MaxLines + N - 1 whole messages and MaxSize - 1 + N * L bytes, apart from the fronts that failed writes left |
| RotationDays.LogIsAsked | common/hlogger/file.go:123-153 | in every run each write is of the message its goroutine was last asked to write |
| RotationDays.DayBound | common/hlogger/file.go:115-153 | with N writers a daily file opened by rotation holds at most N messages of another day of the month |
| RotationDays.OneDay | common/hlogger/file.go:115-153 | a lone writer whose clock agrees with its messages keeps every such file to one day |
| RotationDays.DaysMix | common/hlogger/file.go:129-153 | a run of two writers whose clocks agree that leaves messages of two days in one file |
| Sessions.Service.CreateToken | services/hsessionsvs/slots.go:51-71 | the eviction loop, with any database calls failing, leaves the specified table and cache |
| Sessions.Service.VerifyToken | services/hsessionsvs/slots.go:93-123 | magic token, cache, table, in that order, filling the cache on a table hit |
| Sessions.CreatedRows | services/hsessionsvs/slots.go:51-71 | whatever calls fail, the user is left with the newest earlier tokens, one of the oldest gone for each successful round, then the new one if success is reported; other users' rows are unchanged |
| Sessions.SessionCap | services/hsessionsvs/slots.go:51-71 | after a CreateToken that reports success the user has at most SessionsPerUser tokens exactly when there was room or every read and delete of the eviction succeeded |
| Sessions.CapExceeded | services/hsessionsvs/slots.go:56-63 | with a cap of one, a failing delete leaves the earlier token beside the new one |
| Sessions.CoherentStep | services/hsessionsvs/service.go:95-115 | every slot and every cache loss keep each cached token equal to its row |
| Sessions.CacheTransparent | services/hsessionsvs/slots.go:93-123 | in every reachable state the verdict is that of the table alone, unless the read fails with nothing cached |
| Sessions.AcceptedExactly | services/hsessionsvs/service.go:76-93 | in every reachable state, with the database up, a token is accepted exactly when it is the magic one or has an unexpired row that agrees with the request in IP, user and agent where these are checked |
| Sessions.NewTokenIsCached | services/hsessionsvs/slots.go:66-71 | a new token is judged from the cache, database up or down |
| Sessions.HitIsCached | services/hsessionsvs/slots.go:107-122 | after a table hit the same request gets the same verdict with the database down |
| Sessions.RevokedOnly | services/hsessionsvs/service.go:110-115 | revoking takes the row and the cache entry of that token and nothing else; with the database down the entry alone |
| Sessions.RevokedForGood | services/hsessionsvs/service.go:110-115 | a successfully revoked token is never accepted again unless it is the magic token |
| Lockout.Account.Login | services/hapauthsvs/slots.go:74-97 | the branches on lock, expiry and password leave the specified record |
| Lockout.Account.ChangePwd | services/hapauthsvs/slots.go:246-285 | a wrong old password counts as a failure, a right one does not reset the count |
| Lockout.LoginSays | services/hapauthsvs/slots.go:74-97 | denied exactly under an unexpired lock, passed exactly with the right password otherwise; a pass clears lock and count, a failure counts one and locks exactly at the limit |
| Lockout.ChangePwdSays | services/hapauthsvs/slots.go:246-291 | passed exactly unlocked with the right old and a strong new password; a wrong one counts and locks as in Login |
| Lockout.LockHolds | services/hapauthsvs/slots.go:293-311 | in every run a stored lock denies every login until it expires or is lifted |
| Lockout.LiftedLock | services/hapauthsvs/slots.go:313-333 | unlocking or resetting clears the count and lets the right password pass |
| Lockout.CountAlone | services/hapauthsvs/slots.go:144-158 | CheckLogin clears the count and nothing else, locking leaves it, and a lost save changes nothing |
| Lockout.OverLimitIsLocked | services/hapauthsvs/slots.go:83-92 | in every run a stored failure count at the limit means locked, whatever saves were lost |
| Lockout.GuessesBounded | services/hapauthsvs/slots.go:74-97 | between resets the wrong passwords compared number at most the limit plus the expiries used up plus the failures whose save was lost |

## Left out

- RoutingLimits.RoutingExact: the order of the database is a parameter, so conditions other than equalities are taken not to decide a naming field by themselves, as k >= 5 and k <= 5 does; rows hold values of their columns' kinds.
- Routing.RoutingSound: naming fields of integer and string kind only, equality exact (no case-insensitive collation), integers within 2^53.
- Sessions.CacheTransparent: token values compare exactly, in the table as in the cache; under a case-insensitive collation the cache key, which is the requested text, and the value of the row can differ. Slots are taken one after another, as atomic steps; overlapping CreateToken calls of one user can exceed the cap.
- Lockout.GuessesBounded: slots are atomic steps; the code reads the record, compares and saves it without a lock, so overlapping Login calls can compare more passwords than the bound says.
- ConditionRoundTrip.RoundTrip: fields entered under their own keys, as AddField does; ASCII texts; the code takes indexes in the upper-cased text, which may differ in length otherwise. NaN and infinities, which ParseFloat accepts, are not values of the model.
- AsyncLogger.FlushBarrier: Flush and Close calls one after another and no send racing Close, which the code does not enforce; interleavings need atomic steps over one state, so the logger is modelled on values rather than as a class. Synchronous mode is not modelled.
- RotationRuns.FileBound: for a live file opened by a successful rotation on which no later rotation has failed.
- FileRotation.FileLogWriter.WriteMsg: deletion of old archives and time headers are not modelled.
- ServerPbCodec.PbServiceRequest.Unmarshal: nil and empty bytes are one value, and reuse of the backing array of Params is not modelled; messages whose bytes exceed the int range are excluded.
- The database, ORM and table creation: tables are sequences or maps, calls succeed or fail without effect; NULLs, the table-existence cache, batch creation, Delete, views, paging and ordering.
- DataService.Service.Create: an object whose naming values are fractional or beyond 2^53, or an update that sets a naming column, is carried out as in the code, but rows need not be placed afterwards; from then on Query and Update promise only what they do with the routed table.
- The SQL spelling of single comparisons: an atom carries its column, its operator and how many values it binds.
- Hooks, reflection, parameter checking, response texts of errors.
- The super user, logins for unknown users, UpdateUser's direct unlocking and the arithmetic of lock times (a lock's expiry is an input).
- The multi-file logger, console colours, configuration, gateways, routers, middlewares and the remaining services: easy members or calls into foreign libraries.
