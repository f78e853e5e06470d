# Hamstergres: a verified model

Hamstergres is a PostgreSQL sharding proxy: it makes many Burrows (PostgreSQL servers) look like one
logical database. This project models the parts of it on which that illusion rests and proves what they
promise, for every input, every run and every pattern of failures the model allows.

- **Commit and schema protocols.** Two-phase commit over lost replies (`TwoPhase`), the write participants
  of a transaction (`Transactions`), fleet-wide DDL under the one-token gate (`FleetDdl`), the stale-schema
  barrier (`SchemaBarrier`), global IDs (`Sequence`) and the topology catalog (`CasCell`, `TopologyStore`,
  `TopologyHistory`) over any number of sessions or Proxies.
- **Routing as a transformation that keeps meaning.** Canonical key texts (`Text`, `Decimal`, `Scalar`) and
  what becomes of them on the way (`Literals`, `Rounding`, `Modifiers`), which spellings and operands are read
  (`Spellings`, `Operands`), the router over a parsed statement (`Schema`, `Router`, `Analysis`), SQL's meaning of that statement (`Meaning`), the equivalence of the fleet with one
  logical table over any run of writes and for every read (`Bags`, `LogicalTable`, `Joins`, `LogicalReads`), and the
  statements that break it (`Displacement`).
- **Placement.** The catalog and its dictionary-encoded vshard map (`TopologyCatalog`, `TopologyBootstrap`,
  `Placements`).
- **Streaming COPY.** Framing and parsing of text, CSV and binary records (`CopyRecords`), round trips with
  encoders (`CopyText`, `CopyCsv`), the input stream (`Splitter`, `CopyStream`, `CopySplit`), its agreement
  with SQL routing (`CopyTargets`) and the output merge (`CopyOutput`). Formats follow the COPY reference page of the
  PostgreSQL 17 documentation, section "File Formats".
- **Session bookkeeping.** Temporary relations with savepoints (`Temporary`), what the tracked names say about
  PostgreSQL's own catalog (`TemporaryCatalog`), and the runtime parameters of a pooled connection (`RuntimeParams`).

Strings are byte strings, one character per byte. Burrows in the protocol modules are numbered in routing
order. Hash functions, PostgreSQL's reading of literals, and whatever else the Proxy does not look into are
parameters, so the theorems hold for all of them.

What the model takes as given: placement does not change during a run of queries, key types are known, casts
in predicates are to the key column's own type, `set_config` is plain assignment, and a statement sent to a
Burrow means what SQL says it means. A query message holds one statement: a COMMIT behind another statement, or
a second SELECT, is not looked at by the Proxy (internal/router/router.go:60-62, internal/proxy/server.go:2197).
An unqualified name means the public table, no view stands for a sharded one, functions answer the same on every
Burrow, and no trigger and no ON UPDATE CASCADE writes a key column.

## Where the code falls short of its documentation

Each of these is a theorem with a witness and the exact condition under which the promise holds.

- README.md:349-352 and docs/architecture.md:81 promise atomic multi-Burrow commit. A redundant BEGIN inside a
  transaction empties the recorded participants (internal/proxy/server.go:2795-2801), after which COMMIT may
  split: `Transactions.RunTransaction` and `Transactions.SplitTransaction`, and for fleet DDL
  `FleetDdl.FreeGateMeansSameSchema` and `FleetDdl.CommitGuardIsExact`.
- Type modifiers are dropped before a key is hashed (internal/router/router.go:692-694 and 669-682), while
  PostgreSQL applies them when it stores or casts the value, cuts a name to 63 bytes when it reads it, reads an
  oid with a minus sign modulo 2^32 and one with a leading zero in octal, and stores an unquoted number in a text
  column as that number's own text: `Meaning.ScalarDenotes`, `LogicalTable.RoutedKeyIsStoredKey`,
  `LogicalTable.CopiedKeyIsStoredKey`, `Modifiers.EveryPathAgrees`, with the witnesses
  `Displacement.RoundedInsertMisplaced`, `RoundedCopyMisplaced`, `RoundedCastMisses`, `MisreadInsertMisplaced`,
  `MisreadCopyMisplaced`, `MisreadDeleteMisses` and `NumberInsertMisplaced`.
- Collations are dropped (internal/router/router.go:637-639), while docs/postgresql-compatibility.md:66 counts
  them in: under a nondeterministic one a key equals keys of other Burrows. `Analysis.KeyPredicateExact`, with
  the witnesses `Displacement.CollatedTextMisses` and `Displacement.CollatedColumnMisses`.
- A key column may be assigned through a subscript (internal/router/router.go:485-487):
  `Displacement.AcceptedUpdateStaysPut`, `Displacement.SubscriptUpdateMoves`.
- Only ordinary calls by built-in aggregate names are recognised (internal/router/router.go:894-939), so a SELECT
  with a user-defined aggregate or JSON_ARRAYAGG is scattered: `LogicalReads.ScatteredReadAgrees`,
  `LogicalReads.HiddenAggregateScatters`.
- COPY accepts a carriage return or line feed as the CSV quote (internal/copyrouter/copy.go:184-189):
  `CopyCsv.RowsComeBackExactly`. Its parser would also take a backslash as the text delimiter, where its
  backslash test and the escape rules part (`CopyRecords.BackslashDelimiter`); PostgreSQL refuses that delimiter
  before a record is parsed.
- A SELECT without a plain table in FROM is scattered although it may keep rows of another side of an outer join
  (internal/router/router.go:97-103 and internal/proxy/server.go:2694), while README.md:10 promises that only
  append-safe reads are: `LogicalReads.ScatteredReadAgrees`, `LogicalReads.LeftJoinScatters`.
- A two-phase COMMIT that fails leaves the temporary-relation snapshots in place
  (internal/proxy/server.go:2506-2514): `Temporary.Session.AfterFailedCommit`, `Temporary.LostTable`.
- Octal escapes above \377 in COPY text stand for the byte 255 (internal/copyrouter/copy.go:713), while PostgreSQL
  keeps their low eight bits: `CopyText.OctalReads`.
- The tracked spellings of temporary relations join schema and name by a dot (internal/proxy/server.go:3575-3583),
  so a quoted name with a dot can be taken for another: `TemporaryCatalog.DottedNameConfused`.

## Model

| member | source | states |
|---|---|---|
| TwoPhase.CommitTwoPhase | internal/proxy/server.go:2585-2625 | For every pattern of refused commands and lost replies: no COMMIT PREPARED before every participant is prepared; success means all participants committed; an ordinary error comes from the first command that got no good answer and commits nothing. If that was a vote, every participant that had said yes is then sent ROLLBACK PREPARED and every other one ROLLBACK, and exactly those stay prepared whose PREPARE took effect while no ROLLBACK PREPARED did: where all of these are answered, at most the Burrow whose own vote lost its reply. In doubt means the COMMIT PREPAREDs went out in routing order up to the first failure, and each participant is committed or still prepared, none rolled back; Burrows that are not participants are rolled back |
| TwoPhase.OrphansStayPrepared | internal/proxy/server.go:2601-2609 | Over any command log that commits nothing, a Burrow is left prepared exactly when its PREPARE took effect, reply or no reply, and no ROLLBACK PREPARED did |
| TwoPhase.ReleaseOthers | internal/proxy/server.go:2591-2597 | Non-participants are rolled back first; a failure there leaves nothing prepared or committed |
| TwoPhase.PrepareAll | internal/proxy/server.go:2598-2611 | The vote: all participants prepared with every command answered, or the first failed vote followed by the clean-up and nothing committed |
| TwoPhase.CleanUp | internal/proxy/server.go:2602-2608 | After the failed vote every participant asked before it gets ROLLBACK PREPARED and every other one ROLLBACK, answers ignored, and no ROLLBACK PREPARED comes earlier |
| TwoPhase.CommitAll | internal/proxy/server.go:2612-2622 | COMMIT PREPARED goes to participants only, in routing order, and the first that fails stops the loop with the in-doubt result |
| TwoPhase.RunTransactionCommand | internal/proxy/server.go:2638-2644 | One command: answered, refused or its reply lost; the fleet is always the replay of the command log |
| Transactions.ExtendedState.RecordWriteParticipants | internal/proxy/server.go:2758-2766 | A write statement or fleet DDL inside a transaction adds its targets to the participants |
| Transactions.ExtendedState.MarkWriteParticipants | internal/proxy/server.go:1249-1256 | COPY FROM adds its targets to the participants inside a transaction |
| Transactions.ExtendedState.UpdateTransactionStatement | internal/proxy/server.go:2790-2827 | BEGIN, also a redundant one, empties the recorded participants; savepoint statements leave them |
| Transactions.ExtendedState.ApplySuccessful | internal/proxy/server.go:2197-2199 | The recorded participants are exactly the Burrows written since the last BEGIN |
| Transactions.RunTransaction | internal/proxy/server.go:2197-2199 | After COMMIT all written Burrows have committed or none has, unless in doubt, provided every Burrow written before a redundant BEGIN is written again after it |
| Transactions.SplitTransaction | internal/proxy/server.go:2795-2801 | The condition is exact: without it there is a failure pattern after which some written Burrows have committed and others have not, and no in-doubt result is reported |
| Transactions.WrittenSplitsAtBegin | internal/proxy/server.go:2758-2766 | What a transaction wrote is what it wrote before and after its last redundant BEGIN |
| FleetDdl.GateIsExclusive | internal/backend/backend.go:735-779 | Over any run of any number of sessions the gate's token plus its holders is exactly one |
| FleetDdl.FreeGateMeansSameSchema | internal/proxy/server.go:2540-2583 | In every reachable state with the gate free and no commit in doubt, all Burrows have committed the same schema changes in the same order, if every COMMIT of the run had recorded the whole fleet or had no schema change pending |
| FleetDdl.FreeGateMeansLedger | internal/proxy/server.go:2292-2349 | Under the same condition each of those logs is exactly the ledger: the schema changes of the commits that succeeded, in their order, each with all that its transaction had left after its returns to savepoints |
| FleetDdl.RunTracks | internal/proxy/server.go:2540-2583 | Over every interleaved run the open transactions hold what their own statements have left, and the logs hold the ledger, plus the committing changes on the Burrows already passed |
| FleetDdl.AutoDdlCommits | internal/proxy/server.go:2292-2349 | A schema change outside a transaction, every command answered, is added to the log of every Burrow, and the gate is free again |
| FleetDdl.DdlTransactionCommits | internal/proxy/server.go:2506-2583 | BEGIN, any writes, schema changes and returns to savepoints, COMMIT, every command answered: the changes that survive are added to the log of every Burrow |
| FleetDdl.CommitGuardIsExact | internal/proxy/server.go:2795-2801 | That condition is exact: from any state the protocol can be in, carrying on after a COMMIT is safe if and only if the recorded participants are all Burrows or no schema change is pending |
| FleetDdl.ReachableCommitGuard | internal/proxy/server.go:2540-2583 | The same for every COMMIT a run comes to from the start |
| FleetDdl.UncoveredDiverges | internal/proxy/server.go:2197-2199 | After a COMMIT outside the condition, with no participant, one or several recorded, the run can end with the gate free, nothing in doubt and different schemas; with several no failure is needed |
| FleetDdl.RunKeepsInv | internal/proxy/server.go:2292-2349 | Every step of autocommit and in-transaction fleet DDL keeps the protocol invariant, redundant BEGINs included as long as every COMMIT meets the condition |
| FleetDdl.RunKeepsGate | internal/backend/backend.go:742-779 | Locking, unlocking and closing keep at most one holder |
| FleetDdl.CommitKeepsInv | internal/proxy/server.go:2573-2583 | A step of the second phase moves one Burrow from the old log to the new one |
| FleetDdl.PrepareKeepsInv | internal/proxy/server.go:2542-2556 | A step of the first phase changes no committed log |
| FleetDdl.FailedVoteEndsCommit | internal/proxy/server.go:2600-2609 | A vote that gets no good answer ends the commit: no log changes, nothing is in doubt, the session keeps the gate |
| FleetDdl.BroadcastKeepsInv | internal/proxy/server.go:2197-2199 | A plain COMMIT with nothing pending changes no log |
| SchemaBarrier.BarrierReflectsEarlierCommits | internal/proxy/server.go:1434-1472 | In every interleaving a commit the registry does not reflect has the pending flag up, and a barrier that returned success reflects every schema commit published before it was called |
| SchemaBarrier.StepKeepsInv | internal/proxy/server.go:1442-1465 | Each step of bracketed commits, refreshes that may fail and unlocked stores to the flag keeps the invariant, and the registry never goes back |
| SchemaBarrier.RunKeepsInv | internal/proxy/server.go:1434-1472 | The invariant holds over every run |
| SchemaBarrier.RefreshCatchesUp | internal/proxy/server.go:1442-1472 | A barrier that runs alone and whose refresh succeeds leaves the registry up to date, the pending flag down and the mutex free |
| Sequence.IdsAreUniqueAndIncreasing | internal/nest/sequence.go:25-44 | Over any interleaving of any number of Proxies, lost replies included: returned IDs are between 1 and 2^63-1, no two are equal, and a call that starts after another returned gives a larger one |
| Sequence.SwapKeepsInv | internal/nest/sequence.go:76-99 | A compare-and-swap, applied or not, delivered or lost, keeps the allocation invariant |
| Sequence.RunKeepsInv | internal/nest/sequence.go:25-99 | The allocation invariant holds over every run |
| Sequence.NextSucceeds | internal/nest/sequence.go:25-99 | A Next whose requests are answered and whose key nobody else writes meanwhile returns one more than the stored value, whatever happens to other keys |
| Sequence.AttemptSucceeds | internal/nest/sequence.go:25-44 | So does every later attempt of a Next that lost races before |
| Sequence.FailedSwapReturnsNothing | internal/nest/sequence.go:25-44 | A swap whose reply is lost fails the call, and one that loses the race is tried again, 64 times in all; neither returns an ID |
| Decimal.CanonicalDecimal | internal/router/router.go:743-790 | The routine with its zero-cancelling loop computes the canonical text |
| Decimal.AcceptsGrammar | internal/router/router.go:743-769 | Every optionally signed decimal with optional exponent and surrounding white space is accepted and read as what it says |
| Decimal.OnlyGrammarAccepted | internal/router/router.go:743-769 | Nothing else is accepted |
| Decimal.CanonicalDenotesSame | internal/router/router.go:770-790 | The canonical text is itself accepted and denotes the same number |
| Decimal.CanonicalDecidesEquality | internal/router/router.go:743-790 | Two accepted spellings have the same text exactly when they denote the same number, signed zero, leading and trailing zeros and exponents included |
| Decimal.CanonicalIdempotent | internal/router/router.go:743-790 | The canonical text is a fixed point |
| Decimal.LowestUnique | internal/router/router.go:774-789 | Digits and scale in lowest terms are determined by the number |
| Rounding.KeyKeptExactly | internal/router/router.go:692-703 | A numeric key survives rounding to the scale of numeric(p, s), negative scales included, exactly when its canonical text has at most s digits after the point |
| Rounding.RoundAddsNone | internal/router/router.go:692-703 | Rounding never gives a number more digits after the point |
| Modifiers.CoercedKeeps | internal/router/router.go:692-694 | numeric(p, s), varchar(n), char(n), name and oid leave a key value alone exactly when it has no more digits or characters than they keep, and no minus sign; the router looks at none of this |
| Modifiers.CoercedAddsNothing | internal/router/router.go:669-682 | However many casts follow one another, none makes a value break a limit it kept |
| Modifiers.FitsIsWithin | internal/router/router.go:684-741 | Whether a value keeps a limit can be read off its canonical text |
| Scalar.CanonicalScalarFixed | internal/router/router.go:684-741 | On integer, decimal, boolean, UUID and text types the canonical text is a fixed point and denotes the same value |
| Modifiers.OneTextPerValue | internal/router/router.go:684-741 | Two accepted spellings that fit their type, no minus sign and no octal zero in an oid and no more than 63 bytes in a name, get one text exactly when PostgreSQL reads one value; and beside one that fits, another spelling of its value gets the same text exactly when it fits too |
| Modifiers.ReadAsDenoted | internal/router/router.go:684-741 | The canonical text denotes what PostgreSQL reads exactly when the spelling fits |
| Modifiers.MinusMakesTwoTexts | internal/router/router.go:696-701 | A negative spelling of an oid and the oid itself are one value with two texts |
| Scalar.CanonicalScalarDecides | internal/router/router.go:684-741 | Two accepted spellings get one text exactly when they denote one value, taking a minus sign at its word |
| Modifiers.EveryPathAgrees | internal/copyrouter/copy.go:890-941 | One key value has one text through a literal or parameter (canonicalised twice), a text or CSV field (once) and a binary field, blank-padded for char(n), if and only if its spelling fits its type |
| Scalar.TypeKeyIgnores | internal/router/router.go:688-694 | The schema and the modifiers of a type name do not change how its keys are canonicalised |
| Scalar.SendDecodes | internal/copyrouter/copy.go:890-941 | decodeBinaryKey inverts the binary encoding of integers (two's complement, unsigned for oid), booleans, UUIDs and text, char(n) with however many blanks behind it |
| Literals.OctalDiffers | internal/router/router.go:696-701 | An oid with a superfluous leading zero and two digits or more is another number in octal than in decimal |
| Literals.TokenStartsText | internal/router/router.go:651-652 | An unquoted number is the beginning of the text PostgreSQL makes of it only if it is all of it |
| Scalar.FormatIntReads | internal/router/router.go:696-701 | Formatting an integer and reading it back gives the integer |
| Spellings.IntegerAccepted | internal/router/router.go:696-701 | An integer of any length with a sign and white space around it is read as what it says |
| Spellings.OnlyIntegers | internal/router/router.go:696-701 | Nothing else is read as an integer |
| Spellings.BooleansAsPostgres | internal/router/router.go:716-724 | The truth words PostgreSQL documents are read, in any case, and every word that is read means what PostgreSQL takes it for |
| Spellings.UuidAccepted | internal/router/router.go:725-731 | A UUID is read as its 32 digits, with hyphens anywhere, digits of either case, braces and white space around it |
| Spellings.TypeNamesAgree | internal/router/router.go:688-737 | Every name PostgreSQL has for a key type stands for one and the same type, with or without schema and modifiers |
| Scalar.UuidDecides | internal/router/router.go:725-731 | UUID spellings with braces, hyphens and either case get one text exactly when their hexadecimal digits agree |
| Scalar.HyphenatedReads | internal/router/router.go:725-731 | The hyphenated form of 32 digits is canonical |
| Scalar.TrimBlanksDecides | internal/router/router.go:734-735 | bpchar keys get one text exactly when they are equal after blank padding |
| Scalar.SentInt | internal/copyrouter/copy.go:892-911 | Big-endian two's complement and unsigned integers decode to their decimal text |
| Scalar.SentUuid | internal/copyrouter/copy.go:927-932 | Sixteen bytes decode to the hyphenated form of their digits |
| Router.CollectEqualities | internal/router/router.go:506-539 | Walking the tree and filling one map collects exactly the top-level AND-ed equalities, and gives up on OR, NOT, a column named twice and rows of different lengths |
| Router.CollectEquality | internal/router/router.go:526-556 | A row comparison is collected pair by pair |
| Router.OrderedValues | internal/router/router.go:558-576 | The key texts in column order, or nothing if one key column has no usable constant |
| Router.PairsStop | internal/router/router.go:531-535 | A refused pair refuses the whole row comparison |
| Router.CollectExact | internal/router/router.go:506-556 | Collecting succeeds if and only if the predicate is a conjunction of conditions and equalities, rows only against rows as long, that binds no column twice; the map then holds exactly its bindings |
| Router.OrderedExact | internal/router/router.go:558-576 | The key has its texts if and only if every key column is bound to an operand the router can read |
| Operands.ColumnNameIs | internal/router/router.go:578-608 | A column is named by itself, behind the table name or its alias, or behind schema and table, and by nothing else |
| Operands.WrappedReadsAlike | internal/router/router.go:610-639 | Casts to the column's own type and COLLATE clauses change nothing about the key text of a literal or parameter |
| Operands.ConstantIsRead | internal/router/router.go:647-658 | A quoted text is read as itself, a number as the number, a truth value as that value, and NULL not at all |
| Operands.ParameterIsRead | internal/router/router.go:640-646 | Parameters are counted from one; one that is NULL or missing is not read |
| Operands.SignIsRead | internal/router/router.go:659-665 | A sign before a number gives the signed number |
| Meaning.CollectSound | internal/router/router.go:506-556 | On every row that satisfies the predicate under SQL's three-valued logic, each collected column equals its operand under the collation of their comparison |
| Meaning.CollectComplete | internal/router/router.go:506-556 | A predicate made of key equalities, row comparisons included, accepts every row on which what was collected holds |
| Meaning.CollectAllSound | internal/router/router.go:510-520 | The same for the arguments of an AND |
| Meaning.RawDenotes | internal/router/router.go:621-667 | Through parameters, nested casts, collations and signs, the value of an operand whose constant is straight is the one the router's text denotes if that keeps every modifier on the way, and keeps them all in any case |
| Meaning.CrookedDiffers | internal/router/router.go:645-654 | An operand whose constant is not straight, an unquoted number that becomes another text or an oid that PostgreSQL reads in octal, never has the value the router's text denotes |
| Meaning.ScalarDenotes | internal/router/router.go:610-619 | An operand's canonical text denotes the operand's value exactly when its constant is straight and the text fits the modifiers of every cast around it, the 63 bytes of a name and the sign of an oid |
| Meaning.AloneIsValue | internal/router/router.go:637-639 | A column that equals a constant operand has its value, where the collation of the comparison holds nothing else equal to it; the router drops the collation |
| Meaning.DeterministicAlone | internal/router/router.go:637-639 | A deterministic collation never does |
| Meaning.UncollatedAlone | internal/router/router.go:684-741 | Nor does any for a type without collations |
| Meaning.SignedDenotes | internal/router/router.go:659-665 | A sign put in front of an accepted number's text negates or keeps the number |
| Analysis.RoutedRowsAreOwned | internal/router/router.go:211-274 | If a SELECT, UPDATE or DELETE is routed to T by operands nothing else is held equal to, a row its WHERE clause accepts has exactly the collected key tuple if and only if the key texts fit, and is then owned by T |
| Analysis.PredicateKeyExact | internal/router/router.go:495-576 | The same for a predicate tree by itself |
| Analysis.KeyPredicateExact | internal/router/router.go:495-576 | A predicate made of key equalities accepts only rows of the collected key if and only if the key texts fit and the collations hold no other value equal to theirs |
| Analysis.AnySpelling | internal/router/router.go:285-310 | However a key is spelled, it has one owner |
| Analysis.PredicateRowOwned | internal/router/router.go:495-576 | A row that satisfies a predicate whose key texts fit and stand alone is owned by the target of the predicate's key |
| Analysis.PredicateFixesKey | internal/router/router.go:495-576 | A WHERE clause fixes the key if and only if it is such a conjunction and binds every key column to an operand the router can read, whatever other conditions it holds |
| Analysis.InsertFixesKey | internal/router/router.go:451-476 | An INSERT fixes the key if and only if it has one VALUES row as long as its plain column list, names no column twice and gives every key column a readable value |
| Analysis.WriteDecision | internal/proxy/server.go:2272-2276 | A write to a sharded table is sent to the owner of the key it fixes, or refused when it has none |
| Analysis.KeyChangeIsRefused | internal/router/router.go:254-261 | An UPDATE that assigns a key column directly is refused, and so is an INSERT with ON CONFLICT |
| Analysis.ReadDecision | internal/proxy/server.go:2252-2283 | A SELECT from a sharded table is sent to the owner of the key it fixes, or else refused or sent to every Burrow |
| Analysis.ScatterIsOneRelation | internal/router/router.go:863-892 | Only a SELECT over a single relation, a sharded one, is ever sent to every Burrow |
| Analysis.SingleBurrowIs | internal/router/router.go:216-234 | A read is left to one Burrow if and only if no relation it names is sharded, by its own name or by the public one it stands for |
| Analysis.RelationsApart | internal/router/router.go:441-449 | Relations of different names or schemas are not taken for one another |
| Analysis.CaseHidesNothing | internal/router/router.go:923-939 | Letter case does not hide an aggregate |
| Analysis.JoinInjective | internal/router/router.go:285-310 | No two key tuples of texts without NUL are hashed as one text |
| LogicalTable.RoutedIsPlain | internal/router/router.go:211-274 | Only statements over one relation with nothing else to them are routed: no ON CONFLICT, WITH, FROM, USING, set operation or several rows |
| Placements.TargetsAreListed | internal/topology/catalog.go:364-373 | When placements and target list come from one valid catalog, a key is never routed outside the list |
| Placements.TargetIsPlaced | internal/router/router.go:285-310 | A key goes to whatever Burrow its table's placement gives the vshard of its canonical texts, and nowhere unless the placement lists all 65536 vshards |
| Placements.LookupIsModulo | internal/router/router.go:423-433 | Without legacy owners, table-driven lookup is BurrowForKey on the sorted names, for every key and every hash |
| LogicalTable.RunKeeps | internal/proxy/server.go:2272-2276 | Over any run of INSERT, UPDATE, DELETE and COPY rows, each carried out where the Proxy sends it, every row sits on the Burrow that owns its key and the Burrows together hold exactly the logical table |
| LogicalTable.WriteKeeps | internal/proxy/server.go:2678-2710 | One write does to the fleet what it does to one logical table |
| LogicalTable.WriteIsSentOrRefused | internal/proxy/server.go:2272-2276 | Every write to the table, a COPY row included, is sent to the owner of its key or refused: none is scattered |
| LogicalTable.InsertedOwned | internal/router/router.go:451-476 | A routed one-row INSERT whose key texts fit their casts and columns stores its row on the owner of the row's key |
| LogicalTable.CopiedOwned | internal/copyrouter/copy.go:598-628 | So does a routed COPY row whose key texts fit their columns |
| LogicalTable.ChangedOwned | internal/router/router.go:478-493 | An accepted UPDATE that assigns no key column, through a subscript or not, leaves every row where it belongs |
| LogicalTable.MatchedOwned | internal/router/router.go:245-273 | Every row an accepted UPDATE or DELETE matches is on the Burrow it is sent to |
| LogicalReads.RoutedReadAgrees | internal/router/router.go:211-274 | A routed SELECT answers on its one Burrow what it would answer on the logical table, whatever its grouping, aggregates, windows, DISTINCT and LIMIT compute |
| LogicalReads.ScatteredReadAgrees | internal/router/router.go:863-939 | For every scattered SELECT, whatever it joins the table with: appending the Burrows' answers gives the logical answer, whatever its functions, conditions and clauses compute and whatever the table holds, if and only if there is one Burrow, or every aggregate and window function is called in a way the router recognises and no outer join keeps the rows of another side than the table's |
| LogicalReads.RowWiseIsAnswered | internal/router/router.go:863-939 | A SELECT from the table that looks at one row at a time, without ORDER BY, row locks and calls that look like an aggregate, is never refused |
| LogicalReads.AggregatesAreRefused | internal/router/router.go:904-939 | A SELECT that calls one of PostgreSQL's own aggregates, in any letter case, and fixes no key is refused |
| LogicalReads.LeftJoinScatters | internal/router/router.go:97-103 | A LEFT JOIN of a function in FROM with the table is scattered in every fleet of two Burrows or more, calls no aggregate, and is not answered as the logical table would be |
| Joins.Additive | internal/router/router.go:863-892 | A FROM clause with one table, functions, inner joins and outer joins that keep no other side gives for two tables together what it gives for each, LATERAL included |
| Joins.RowsFromNothing | internal/router/router.go:863-892 | With an outer join that keeps another side it can give rows whatever the table holds, even nothing |
| LogicalReads.EveryReadAgrees | internal/proxy/server.go:2678-2710 | After any run of writes every keyed read, and every scattered one whose aggregates the router recognises and whose outer joins keep no other side than the table's, has the answer of the one logical table |
| LogicalReads.AnswerFromNothing | internal/router/router.go:863-892 | An aggregate, a window or an outer join of that kind can answer something for an empty table, and so once per Burrow |
| LogicalReads.HiddenAggregateScatters | internal/router/router.go:894-939 | A SELECT of an aggregate or window call the router does not recognise is scattered in every fleet of two Burrows or more, and its answer is not the logical table's |
| LogicalReads.HiddenCalls | internal/router/router.go:894-939 | There are such calls: a user-defined aggregate with a one-letter name, and JSON_ARRAYAGG, which is not parsed as a function call although the list has its name |
| LogicalTable.RoutedKeyIsStoredKey | internal/router/router.go:451-476 | A row is stored under the key its INSERT was routed by exactly when each key constant is straight and its text fits the modifiers of its casts and of its column |
| LogicalTable.CopiedKeyIsStoredKey | internal/copyrouter/copy.go:598-628 | A COPY row is stored under the key it was routed by exactly when each key text fits its column and no oid is octal |
| Displacement.RoundedInsertMisplaced | internal/router/router.go:451-476 | An INSERT that rounds is accepted: VALUES (a) into a numeric(p, s) key goes to the owner of a and stores another number, which that Burrow does not own |
| Displacement.RoundedCopyMisplaced | internal/copyrouter/copy.go:598-628 | So does a COPY of the text |
| Displacement.RoundedCastMisses | internal/router/router.go:621-637 | A DELETE by a::numeric(p, s) goes to the owner of a while every row it matches belongs elsewhere |
| Displacement.RoundedKeyMoves | internal/router/router.go:692-703 | There are such numbers: 1.005 and 1.01 with scale 2 |
| Displacement.CollatedDeleteMisses | internal/router/router.go:637-639 | A DELETE by a key operand is sent to the operand's owner and matches a row of another Burrow, if the comparison's collation holds the two keys equal |
| Displacement.CollatedTextMisses | internal/router/router.go:637-639 | So with a COLLATE clause on a text literal |
| Displacement.CollatedColumnMisses | internal/router/router.go:621-650 | and with a plain literal on a column declared with the collation |
| Displacement.MisreadInsertMisplaced | internal/router/router.go:696-701 | VALUES ('a') stores the value of b on the Burrow that owns a, if PostgreSQL reads a as b's value |
| Displacement.MisreadCopyMisplaced | internal/copyrouter/copy.go:598-628 | So does a COPY of the text a |
| Displacement.MisreadDeleteMisses | internal/router/router.go:621-650 | and a DELETE by it is sent where none of its rows are |
| Displacement.OidsReadTo | internal/router/router.go:696-701 | There are such texts: -1 and 4294967295 as oids |
| Displacement.OctalsReadTo | internal/router/router.go:696-701 | And every oid that PostgreSQL reads in octal |
| Displacement.TenInOctal | internal/router/router.go:696-701 | 010 for one: 8 to PostgreSQL, 10 to the router |
| Displacement.NumberInsertMisplaced | internal/router/router.go:645-654 | VALUES (a) with an unquoted number into a text key stores the number's own text on the Burrow that owns its spelling |
| Displacement.HundredAsText | internal/router/router.go:645-654 | For instance 1e2, which is stored as 100 |
| Displacement.AcceptedUpdateStaysPut | internal/router/router.go:478-493 | An accepted UPDATE keeps every row on its owner, for every change of its targets and every hash, if and only if no target, subscripted or not, names a key column |
| Displacement.SubscriptUpdateMoves | internal/router/router.go:485-487 | An UPDATE of a name key through a subscript is accepted and turns a row of its Burrow into one that belongs elsewhere |
| TopologyCatalog.LegacyModuloOwners | internal/topology/catalog.go:92-108 | One-indexed modulo placement over the sorted names |
| TopologyCatalog.ModuloInTurn | internal/router/router.go:423-433 | Vshards 1, 2, 3 and so on go to the sorted names in turn, and vshard 0 to the last |
| TopologyCatalog.TargetListIs | internal/topology/catalog.go:364-373 | The target list holds exactly the names of the Burrows that are ready or draining |
| TopologyCatalog.TablePlacements | internal/topology/catalog.go:340-362 | Succeeds exactly on valid catalogs and gives every table its owner array by name |
| TopologyCatalog.OwnersAreRoutable | internal/topology/catalog.go:257-275 | Every owner of a valid catalog is a routable Burrow |
| TopologyCatalog.SortKeeps | internal/topology/catalog.go:372-372 | Sorting names keeps them, repeats included |
| TopologyCatalog.SortOrdered | internal/topology/catalog.go:93-94 | and puts them in byte order |
| TopologyCatalog.LeqIsLexicographic | internal/router/router.go:423-433 | The order of names is lexicographic by bytes |
| TopologyBootstrap.Bootstrap | internal/topology/catalog.go:110-186 | Whenever it succeeds, every sharded table's placement is exactly the given owner array, or modulo placement over the sorted names; the catalog is valid and its Burrows are ready; it succeeds on every well-formed configuration; nothing is assumed of the ID hash |
| TopologyBootstrap.EncodeOwners | internal/topology/catalog.go:139-157 | Dictionary encoding loses no owner and never truncates a 16-bit index |
| TopologyBootstrap.Intern | internal/topology/catalog.go:147-156 | A new owner extends the dictionary, a known one is found in it, the 65537th is refused |
| TopologyBootstrap.CollectBurrows | internal/topology/catalog.go:115-131 | Succeeds exactly on complete configurations without repeated names |
| TopologyBootstrap.EncodedPlacement | internal/topology/catalog.go:340-362 | Decoding the dictionary gives the owner array back |
| TopologyStore.ValidateTransition | internal/topology/catalog.go:375-418 | The loop with its shrinking map accepts exactly: both catalogs valid, revision and time advanced, no Burrow gone, each state moved along its life cycle, new Burrows adding, vshard counts kept |
| TopologyStore.StepsAlongStages | internal/topology/catalog.go:424-440 | A Burrow never goes back a stage, may stop draining, and is not removed while it is ready |
| TopologyStore.ReconcileTables | internal/nest/topology.go:148-159 | Exactly the sharded tables, known ones where they were, new ones in the bootstrap distribution |
| TopologyStore.Reconcile | internal/nest/topology.go:144-168 | The catalog derived from the current one for a schema |
| TopologyStore.ReconciledFits | internal/topology/catalog.go:289-310 | A reconciled catalog satisfies ValidateSchema and keeps the placement of every table sharded before and after |
| CasCell.RunKeepsInv | internal/nest/topology.go:178-218 | Over any interleaving of reads and compare-and-swaps, delivered late, repeatedly or never, the history has one first value, every later value was derived from the one it replaced, and nothing is taken back |
| CasCell.PutKeepsLinear | internal/nest/topology.go:178-218 | One transaction extends a linear history or leaves it |
| TopologyHistory.RunIsLinear | internal/nest/topology.go:81-218 | So the stored topology history is linear over any run of bootstraps, updates and reconciliations |
| TopologyHistory.RevisionsCount | internal/topology/catalog.go:376-384 | Every stored catalog is valid and revisions count up by one without wrapping |
| TopologyHistory.BurrowsPersist | internal/topology/catalog.go:388-407 | A Burrow ID never disappears and removed is absorbing |
| TopologyHistory.BurrowLifeCycle | internal/topology/catalog.go:424-440 | A Burrow enters the catalog only as adding and is removed only from adding or draining |
| TopologyHistory.SizesPersist | internal/topology/catalog.go:408-416 | No update changes the number of vshards of a distribution |
| TopologyHistory.ReconciledEntry | internal/nest/topology.go:135-176 | What ReconcileSchema published fits its schema and kept every placement |
| TopologyHistory.Nest.CompareAndSwap | internal/nest/topology.go:178-218 | A swap whose request and reply get through wins if and only if its comparison holds, and a won swap stands right after the value it replaced |
| TopologyHistory.Nest.VerifyOrBootstrap | internal/nest/topology.go:81-113 | Returns a catalog that is stored, and always one where the catalog given is valid and no message is lost |
| TopologyHistory.Nest.Update | internal/nest/topology.go:115-131 | On success the new catalog stands in the history right after the one it was made from: no update is lost. A valid transition succeeds, where no message is lost, exactly when the catalog it was made from is still the latest |
| TopologyHistory.Nest.ReconcileSchema | internal/nest/topology.go:135-176 | On success a catalog derived for this schema was stored; three conflicts in a row are given up on |
| CopyRecords.DelimitedRecordEnd | internal/copyrouter/copy.go:548-586 | The scan loop finds the first record end that is not inside quotes |
| CopyRecords.RecordEndStable | internal/copyrouter/copy.go:548-586 | A record end once in the buffer stays where it is, whatever follows |
| CopyRecords.ParityIsAutomaton | internal/copyrouter/copy.go:636-652 | The backward backslash-parity test is the left-to-right escape automaton, for every delimiter but the backslash |
| CopyRecords.BackslashDelimiter | internal/copyrouter/copy.go:636-652 | With a backslash delimiter, which COPY does not refuse, the two agree exactly on records without a backslash |
| CopyRecords.SplitRecord | internal/copyrouter/copy.go:636-653 | The splitting loop, counting backslashes backwards at each delimiter |
| CopyRecords.DecodeTextField | internal/copyrouter/copy.go:669-722 | The escape decoder |
| CopyRecords.ParseTextRecord | internal/copyrouter/copy.go:636-667 | Splitting, NULL marker and decoding |
| CopyRecords.ParseCsvRecord | internal/copyrouter/copy.go:728-782 | The CSV record parser with its quoted and plain fields |
| CopyText.TextRoundTrip | internal/copyrouter/copy.go:548-722 | Every row of byte strings and NULLs, escaped, is cut exactly out of any longer buffer and is not the end marker; it is parsed back if and only if no value is written like the NULL text |
| CopyText.HexReads | internal/copyrouter/copy.go:692-705 | A hexadecimal escape of one or two digits in either case stands for the byte it spells, and without a digit for the letter x |
| CopyText.OctalReads | internal/copyrouter/copy.go:706-718 | An octal escape of one to three digits stands for the byte it spells or for 255, which is PostgreSQL's byte if and only if the number is below 256 or its low eight bits are all set |
| CopyText.DefaultNullIsUnambiguous | internal/copyrouter/copy.go:548-672 | With the default NULL text no value is written like it, so every row comes back |
| CopyText.LoneBackslashRefused | internal/copyrouter/copy.go:676-679 | A field that ends in a lone backslash is refused |
| CopyCsv.CsvRoundTrip | internal/copyrouter/copy.go:548-782 | So is every CSV row, quoted and unquoted fields mixed as the writer likes, ended by a line feed with or without a carriage return, line ends inside quotes included |
| CopyCsv.MalformedRefused | internal/copyrouter/copy.go:728-782 | A quote that is never closed, anything but a delimiter after a closing quote, and a quote inside unquoted text are refused |
| CopyCsv.RowsComeBackExactly | internal/copyrouter/copy.go:169-189 | Whatever delimiter, quote, escape and NULL text COPY accepts, every row of every width comes back, however it is written and ended, if and only if the quote is neither a carriage return nor a line feed |
| CopyStream.WritesAreCutIndependent | internal/copyrouter/copy.go:465-485 | For text, CSV and binary: every way of cutting the input into successful writes gives the chunks, targets, row count and rest of a single write of all of it, and chunks plus rest are the bytes written |
| CopyStream.WholeInputSent | internal/copyrouter/copy.go:487-546 | The chunks of all writes and of the finish together are the bytes written, a last record without its terminator included |
| CopyStream.MachineSound | internal/copyrouter/copy.go:512-869 | Each format's parser is stable under more input, makes progress and conserves its input |
| CopyStream.Stream.Write | internal/copyrouter/copy.go:465-485 | Write keeps the stream equal to the specification of its pieces, and fails exactly when it does |
| CopyStream.Stream.Finish | internal/copyrouter/copy.go:487-510 | The last record, an unterminated quote, a missing header, an incomplete binary file |
| CopyStream.Stream.ConsumeDelimited | internal/copyrouter/copy.go:512-546 | The record loop |
| CopyStream.Stream.ConsumeBinary | internal/copyrouter/copy.go:786-869 | Header, tuples and trailer |
| CopyStream.ScanTuple | internal/copyrouter/copy.go:818-842 | The field loop of a binary tuple |
| CopySplit.SendChunks | internal/proxy/server.go:1200-1220 | Each Burrow is sent its own chunks, and those for everyone, in input order |
| CopySplit.SplitFiles | internal/copyrouter/copy.go:786-869 | In every successful binary COPY each Burrow receives one complete file: the same header, its own tuples in input order, one trailer; each tuple goes to exactly one Burrow |
| CopySplit.RunIsFile | internal/copyrouter/copy.go:786-869 | A successful run is one header, tuples and one trailer, and Rows counts the tuples |
| CopySplit.FileReads | internal/copyrouter/copy.go:786-869 | A Burrow's bytes are read back as exactly its chunks |
| CopySplit.RowsCounted | internal/copyrouter/copy.go:512-546 | In every format Rows counts exactly the chunks that go to one Burrow |
| CopySplit.HeaderForAll | internal/copyrouter/copy.go:526-530 | With HEADER the first record goes to every Burrow |
| CopyTargets.TextRowTarget | internal/copyrouter/copy.go:598-628 | A row in text format, cut out of any longer buffer, goes to the Burrow that SQL routing gives its key, however the key is spelled |
| CopyTargets.CsvRowTarget | internal/copyrouter/copy.go:598-628 | So does a row in CSV format, whichever of its fields are quoted and whatever line end it has, a row that looks like the end marker of the text format included |
| CopyTargets.CsvHeaderToAll | internal/copyrouter/copy.go:527-531 | The header line of a CSV goes to every Burrow, whatever it says |
| CopyTargets.OtherWidthRefused | internal/copyrouter/copy.go:610-612 | A text or CSV row of another width than the column list is refused |
| CopyTargets.OtherTupleRefused | internal/copyrouter/copy.go:809-817 | So is a binary tuple |
| CopyTargets.BinaryRowTarget | internal/copyrouter/copy.go:846-860 | And so does a binary tuple, blank-padded char(n) keys included, framed out of any longer buffer |
| CopyTargets.TupleRoundTrip | internal/copyrouter/copy.go:818-842 | An encoded binary tuple is framed exactly and read back to its values, NULLs included |
| CopyTargets.HeaderReads | internal/copyrouter/copy.go:784-806 | Every binary header, whatever its flags and extension, is recognised whole |
| CopyTargets.TrailerReads | internal/copyrouter/copy.go:809-816 | A field count of -1 is the trailer: it goes to every Burrow, and nothing may follow it |
| CopyTargets.EncodedFileReads | internal/copyrouter/copy.go:381-463 | A file of encoded header, tuples and trailer is a whole file to the output merge and is read back as these parts |
| CopyTargets.KeyTextsAre | internal/copyrouter/copy.go:614-623 | The key texts of a row are found exactly when none is NULL and all are well-formed UTF-8 |
| CopyTargets.BinaryKeysAre | internal/copyrouter/copy.go:846-860 | Those of a binary row exactly when no key column is NULL and all decode |
| CopyOutput.MergeIsOneFile | internal/copyrouter/copy.go:320-448 | Merging complete files gives one complete file: the first header, all tuples in Burrow order, one trailer |
| CopyOutput.EndedWellIsWhole | internal/copyrouter/copy.go:364-379 | A stream that ends well was one whole file |
| CopyOutput.FileContributes | internal/copyrouter/copy.go:398-442 | A file contributes its tuples, the first one its header too and the last one its trailer |
| CopyOutput.CopyOut | internal/proxy/server.go:1258-1310 | All Burrows' streams, each however it was cut: on success a binary output is the one whole file that merging them makes, a delimited one each stream without the header of all but the first |
| CopyOutput.OutputStream.Write | internal/copyrouter/copy.go:329-362 | What is passed on depends on the bytes received, not on their cuts |
| CopyOutput.OutputStream.Finish | internal/copyrouter/copy.go:364-379 | A binary stream was whole and contributed what its parts call for; a CSV stream passed on all but its header |
| CopyOutput.OutputStream.ConsumeBinaryOutput | internal/copyrouter/copy.go:381-448 | The envelope-stripping loop |
| Splitter.CutIndependent | internal/copyrouter/copy.go:465-485 | Incremental splitting by any stable parser is independent of the cuts |
| Splitter.NothingLost | internal/copyrouter/copy.go:465-485 | and conserves its input |
| Temporary.RollbackToRestores | internal/proxy/server.go:3669-3678 | Restoring the latest snapshot of a name is replaying the log cut back to that savepoint, duplicate names included |
| Temporary.ReleaseKeeps | internal/proxy/server.go:3680-3687 | Releasing drops the snapshot and those above it and loses no change |
| Temporary.ApplyConsistent | internal/proxy/server.go:3350-3480 | Every possible statement keeps drop set and index parents among the tracked names |
| Temporary.ApplyNoDrops | internal/proxy/server.go:3394-3405 | Outside a transaction nothing is left to be dropped at commit |
| Temporary.Session.Begin | internal/proxy/server.go:3658-3662 | BEGIN takes one snapshot; inside a transaction it changes nothing, and after a failed COMMIT, temporary DDL since then included, it takes up the failed transaction's snapshots |
| Temporary.Session.Savepoint | internal/proxy/server.go:3664-3667 | SAVEPOINT adds a mark to the log |
| Temporary.Session.RollbackTo | internal/proxy/server.go:3669-3693 | ROLLBACK TO leaves what the surviving statements make of the start |
| Temporary.Session.Release | internal/proxy/server.go:3680-3687 | RELEASE keeps the changes and drops the savepoints |
| Temporary.Session.Finish | internal/proxy/server.go:3695-3706 | COMMIT carries out ON COMMIT DROP, ROLLBACK returns to the start, AND CHAIN starts over |
| Temporary.Session.AfterFailedCommit | internal/proxy/server.go:2506-2524 | After a failed COMMIT, any temporary DDL outside a transaction, and a transaction that is rolled back: what is tracked is what was before the failed transaction, right if and only if that DDL nets nothing; the same with a transaction that is committed, and for a COMMIT whose schema refresh failed |
| Temporary.LostTable | internal/proxy/server.go:2506-2514 | A failing input: a table created after a failed COMMIT, then BEGIN and ROLLBACK, exists and is not tracked |
| Temporary.Session.InStepAgrees | internal/proxy/server.go:3332-3480 | As long as no COMMIT has failed, what is tracked is what PostgreSQL has |
| Temporary.Session.FailCommit | internal/proxy/server.go:2506-2514 | A failed two-phase COMMIT ends the transaction and leaves its snapshots; what is then tracked is right if and only if the transaction's statements came to nothing |
| Temporary.Session.Remember | internal/proxy/server.go:3332-3380 | A statement changes the live maps in place and no snapshot |
| Temporary.Maps.RememberStatement | internal/proxy/server.go:3350-3380 | CREATE, CREATE INDEX, ALTER RENAME, DROP and DISCARD on the tracked names |
| Temporary.Maps.RenameRelation | internal/proxy/server.go:3419-3462 | Renaming carries the drop mark and the indexes' parent along |
| Temporary.Maps.DropOnCommit | internal/proxy/server.go:3708-3726 | ON COMMIT DROP takes the tables and their indexes |
| TemporaryCatalog.StatementTracks | internal/proxy/server.go:3350-3480 | Against PostgreSQL's own catalog of temporary tables, ON COMMIT DROP marks and indexes: CREATE, CREATE INDEX, RENAME, DROP and DISCARD leave the tracked names the spellings of what is there |
| TemporaryCatalog.CommitTracks | internal/proxy/server.go:3708-3726 | COMMIT takes the marked tables and their indexes, and nothing else |
| TemporaryCatalog.ReplayTracks | internal/proxy/server.go:3332-3480 | Over any log of statements that PostgreSQL accepts, savepoints included, the tracked names are the spellings of its catalog |
| TemporaryCatalog.SessionTracks | internal/proxy/server.go:3332-3480 | In a session no COMMIT of which has failed, a name is found if and only if the relation it stands for is there |
| TemporaryCatalog.ContainsIsThere | internal/proxy/server.go:3481-3498 | A name is found among the spellings exactly when it stands for a temporary relation of the catalog |
| TemporaryCatalog.DottedNameConfused | internal/proxy/server.go:3575-3583 | Names with dots are the exception: to drop a relation called pg_temp.k forgets a spelling of the temporary relation k, which is still there |
| RuntimeParams.Connection.Apply | internal/backend/backend.go:486-507 | After success the settings are the original ones overlaid with the desired map, and tracked values equal actual ones |
| RuntimeParams.Lend | internal/backend/backend.go:486-507 | So over any sequence of sessions nothing leaks from an earlier one |
| RuntimeParams.Connection.EnsureBaselines | internal/backend/backend.go:529-552 | Every desired parameter's first value is recorded before it is changed |
| RuntimeParams.Connection.Changed | internal/backend/backend.go:554-578 | Exactly the parameters whose tracked value is not the one wanted |
| RuntimeParams.Connection.SetConfig | internal/backend/backend.go:498-505 | One set_config and its record |
| RuntimeParams.SettingsAre | internal/backend/backend.go:554-578 | Tracked parameters at their wanted values put all settings there |

## Left out

- The frontend message loop, Bind/Describe/Execute pipelining, response relaying and the prepared-statement cache: wire plumbing.
- SQL parsing and deparsing, RewriteGeneratedInsert and DDL normalisation: the model starts from the parsed statement.
- Hashes, random choice, clocks, JSON and base64: parameters or free choices; timestamps are increasing naturals.
- Floating-point keys: their canonical text depends on library float printing; the model treats them as unsupported types.
- Unicode white space and case mapping in key texts and type names: only ASCII is modelled.
- Exponents so large that the canonical text does not fit in memory, where the original fails at run time.
- Casts to a type other than the key column's, and SQL functions the router does not look into.
- MERGE, INSERT ... SELECT, EXPLAIN, WITH and reads of unsharded tables: refused, unrouted or sent to one Burrow of the Proxy's choice; the equivalence covers sharded tables.
- Order of the rows a SELECT returns, locks on them, and TABLESAMPLE: answers are multisets that the data determine.
- Values wider than numeric's precision and over-long varchar values, which PostgreSQL refuses: refusal is any set of values.
- Writes under a leading WITH or EXPLAIN ANALYZE, commit after a failed statement, PREPARE TRANSACTION typed by the client, COMMIT AND CHAIN under two-phase commit, and two-phase commit switched off: outside the atomicity claim.
- Recovery of in-doubt transactions: an operator's task.
- Error texts and which of several errors is reported first: validation is modelled as acceptance or refusal.
- COPY option parsing, encodings other than UTF8, text-format HEADER on output.
- ValidateConfigured, the schema registry's storage in Nest, and status, tracing, metrics, configuration and maintenance code.
- TopologyBootstrap.Bootstrap: does not model that the caller's list is sorted in place.
- TopologyHistory.Nest.Get: the reply is taken as valid JSON; a malformed stored value is an error in the original.
- RuntimeParams.Connection.Apply: one caller at a time per connection, as the pool guarantees; settings a session changes itself with SET, and the reset that undoes them, are not modelled.
- TemporaryCatalog.StatementTracks: temporary views, sequences and indexes that PostgreSQL names itself are not noted by the Proxy and not part of the catalog; IF NOT EXISTS on a name that is taken is not modelled.
