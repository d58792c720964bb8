# Loamss runtime: verified model

A Dafny 4.11 model of six components of the Loamss runtime, with proofs of the properties the runtime depends on:
the hash-chained audit log, the memory layer's derived index, the bidirectional JSON-RPC transport, the placeholder
rewriter, the permission engine with its client credentials, and the two capsule lifecycle protocols.
`dafny verify dfyconfig.toml` checks all of it.

## How the model is built

**Form.** Code that changes things step by step is imperative Dafny: classes with the source's fields
(`AuditStore.Store`, `MemoryStore.Store`, `MemoryStore.Layer`, `TransportTable.Table`, `PermissionEngine.Engine`,
`CapsuleInstaller.Installer`, `Canonical.Buffer`) and methods with the source's loops, each proved against a
specification on values. What happens when several callers run at once is a transition system whose steps are the
source's atomic actions (one SQL statement or transaction step, one critical section, one channel operation, one
compare-and-swap); its theorems are about every run or every reachable state.

**Files, in reading order.**

| files | component |
|---|---|
| `Wrappers`, `Strings`, `Decimal`, `Hexadecimal` | shared datatypes, scanning helpers, numerals |
| `Rebind` | the placeholder rewriter and its lexer |
| `Json`, `Canonical` | JSON values, printer, reader (RFC 8259, sections 6 and 7), and the buffer-writing canonical encoder |
| `Ulid`, `AuditEntry`, `AuditLog`, `AuditStore`, `AuditRuns` | entries and their hash, stored rows and tamper evidence, the writer as a class, interleaved writers |
| `MemoryTables`, `MemoryInvariant`, `MemoryRuns`, `MemoryIdempotence`, `MemoryHeaders`, `MemoryStore` | the derived tables on values, what every write keeps, interleaved runs, repeated upserts, what one upsert makes of the headers, the classes |
| `Transport`, `TransportTable`, `Framing`, `Envelope` | the multiplexer, its pending table, newline framing, message classification (JSON-RPC 2.0, sections 4, 4.1 and 5) |
| `ScopeMatch`, `Permission`, `PermissionEngine`, `Revocation` | match primitives, the decision, the engine as a class, revocation under concurrent checks |
| `Tokens`, `Pairing` | bearer tokens (base64url, RFC 4648, section 5) and concurrent pairing |
| `Process`, `Installer`, `InstallRuns` | the capsule process state machine, install with rollback, installs at once |

**Parameters.** SHA-256 is a function with a fixed-length result (71 characters with its prefix, in the audit log);
ULIDs are pairs of a millisecond and entropy printed in Crockford base 32, drawn afresh; `path.Match`, RFC 3339 parsing
and the text order of stored timestamps are function parameters, as is decoding a number through float64, of which only
is assumed that it keeps integers within 2^53 and yields numbers; clocks, random secrets, and which database, file or
audit operations fail are arguments. Parsed mail headers are given as addresses.

**Where the code differs from its own documentation, the model follows the code.**

- `runtime/internal/permission/clients.go:232-237` says a check racing a revocation can at worst be denied. A check
  decides by the listing it has read, whatever was revoked since (`Revocation.StaleCheckExactly`), so one that listed
  a matching grant before can still allow after the revocation has returned (`Revocation.StaleCheckMayAllow`). And
  since expiry is a comparison of texts, a grant that had expired when the grants were listed can be active again later
  (`Revocation.ExpiredGrantReturns`); `Revocation.LaterChecksExactly` says exactly which later checks deny.
- `runtime/internal/permission/match.go:175-177` calls the upper bound of a range exclusive; it is inclusive
  (`ScopeMatch.UntilIsInclusive`). A bound that does not parse constrains nothing (`ScopeMatch.UnparsedBoundDrops`,
  `ScopeMatch.UnboundedExactly`).
- `runtime/internal/permission/engine.go:91-92` says grants are walked in issue order. They are ordered by the text of
  the issue time, which can put a later grant first (`Permission.TextOrderMatters`), with ties undefined;
  `Permission.IssueOrderExactly` and `Permission.TiesMatterExactly` say when either changes the decision.
- `runtime/internal/permission/store.go:358-360` says registering an identical definition again does nothing; one that
  leaves its namespace to be taken from the name is refused the second time (`PermissionEngine.RegisteredAgain`).
- `runtime/internal/capsule/process.go:143-145` says a second Start after Failed returns an error; only the first call
  can (`Process.StartErrorExactly`, `Process.LaterStartReportsNothing`). A Wait that read Starting before the spawn
  failed never returns (`Process.WaitReturnsUnlessFailed`, `Process.WaitDuringFailedStart`).
- `runtime/internal/memory/store.go:850-854` mentions non-ASCII letters in canonical names; the code looks for a
  space only (`MemoryRuns.UpgradesExactly`, `MemoryRuns.NamesNeedSpaces`). Re-upserting an undated entry can move its
  time window (`MemoryIdempotence.UndatedUpsertMoves`).
- `runtime/internal/mcp/protocol.go:124-128` answers a parse error with a null id, which the peer's own dispatch does
  not recognise as a response (`Envelope.ParseErrorIsDropped`). A write that fails half way runs into the next message
  (`Framing.TornWriteMerges`); `Framing.FramingSurvives` says exactly which failing writes the framing survives.
- `runtime/internal/mcp/transport.go:53-57` says pending Requests are drained with an error that the transport is
  closed; such a Request can return the response the drain made up, without an error (`Transport.DrainedReturnsEither`).
- `runtime/internal/audit/chain.go:58` keeps the precision of integers when an entry is hashed; scanning a stored entry
  does not, so an entry with a larger integer than float64 holds is reported as broken (`AuditLog.BigNumberChanges`,
  `AuditRuns.FirstChangedBreaks`).
- `runtime/internal/capsule/installer.go:102-104` looks the name up first so as not to touch the file system when it is
  taken; an install that loses a race for the name removes the winner's code (`InstallRuns.CodeLostExactly`).
- `runtime/internal/capsule/installer.go:120-126` rolls back with the caller's context: grants whose revocation fails,
  as all do once that context is cancelled, stay active after the failed install (`CapsuleInstaller.FailedInstallActive`).

## Model

| member | source | states |
|---|---|---|
| Rebind.LexKeepsText | runtime/internal/database/database.go:320-380 | the lexical grammar splits every query into tokens without losing or reordering a byte |
| Rebind.TokensShaped | runtime/internal/database/database.go:320-380 | every token is what its bytes say: a code byte opens nothing, a literal ends at the first quote that is neither doubled nor after a backslash, a line comment at the first newline, a block comment at the first star and slash after its slash, and one that is not closed is the last token |
| Rebind.NumberedRelexes | runtime/internal/database/database.go:320-380 | re-lexing the rewritten query gives the same literals, comments and code bytes, each placeholder replaced by the code bytes of its number |
| Rebind.ReboundRelexes | runtime/internal/database/database.go:320-380 | the same for whole queries: every copied byte keeps its lexical state |
| Rebind.ReboundIdempotent | runtime/internal/database/database.go:320-380 | rewriting a rewritten query changes nothing, for every query |
| Rebind.ReboundIs | runtime/internal/database/database.go:320-380 | the rewritten query is its tokens put together as they stand, but for the placeholders, the k-th of which is a dollar sign and the numeral of k |
| Rebind.NumberedAt | runtime/internal/database/database.go:320-380 | the k-th placeholder in code becomes `$k`, with everything around it in place |
| Rebind.NumberedConcat | runtime/internal/database/database.go:320-380 | numbering goes on across token boundaries |
| Rebind.CopyLine | runtime/internal/database/database.go:350-358 | after the line-comment loop what is written and the rewriting of what is left still make the specified query |
| Rebind.CopyBlock | runtime/internal/database/database.go:359-371 | likewise after the block-comment loop, where `/*/` closes a comment |
| Rebind.Rebind | runtime/internal/database/database.go:320-380 | the index loop with its flags, lookahead and lookbehind returns what the recursive grammar prescribes, whose tokens `Rebind.TokensShaped` and whose output `Rebind.ReboundIs` state without it |
| Json.IncreasingUnique | runtime/internal/audit/chain.go:99-104 | a set of keys has one increasing listing, so the order in which keys are visited carries no meaning |
| Json.QuoteReads | runtime/internal/audit/chain.go:80-85 | reading a quoted string gives back the string and exactly the text after it |
| Json.PrintReads | runtime/internal/audit/chain.go:50-128 | the reader recovers exactly the printed value, with any suffix that does not go on a number |
| Json.MembersRead | runtime/internal/audit/chain.go:99-120 | an object reads back from its members printed in any order |
| Json.PrintInjective | runtime/internal/audit/chain.go:50-128 | two values with the same canonical text are the same value and have the same suffix |
| Json.PrintReadsExactly | runtime/internal/audit/chain.go:50-128 | for every well-formed value and every suffix, the printed value reads back with that suffix left over if and only if the suffix does not go on a number that ends the text |
| Json.PrintParses | runtime/internal/audit/chain.go:50-68 | parsing the canonical text gives the value |
| Json.LessIs | runtime/internal/audit/chain.go:104 | keys sort by the first place where they differ, a prefix first |
| Json.ArrayText | runtime/internal/audit/chain.go:88-98 | an array is its items' texts in brackets, with commas between and nothing else |
| Json.ObjectText | runtime/internal/audit/chain.go:99-120 | an object is its members' texts in increasing order of the names, in braces, with colons and commas and nothing else |
| Json.ScalarText | runtime/internal/audit/chain.go:72-87 | the text of a value that holds no others |
| Json.EscapeOne | runtime/internal/audit/chain.go:80-85 | which characters of a string are kept, which have a short escape, and that HTML characters, line separators and other controls are written as four hexadecimal digits |
| Json.ReadValueWellFormed | runtime/internal/audit/writer.go:562-606 | whatever the reader accepts is well-formed JSON |
| Canonical.VisitKeys | runtime/internal/audit/chain.go:100-104 | collecting and sorting the keys of a map in any visiting order gives their increasing listing |
| Canonical.WriteCanonical | runtime/internal/audit/chain.go:70-128 | appends exactly the canonical text of the value to the shared buffer |
| Canonical.WriteArray | runtime/internal/audit/chain.go:88-98 | appends the array's text, items in order |
| Canonical.WriteObject | runtime/internal/audit/chain.go:99-120 | appends the object's text, whatever order its map is visited in |
| Canonical.CanonicalJson | runtime/internal/audit/chain.go:50-68 | the encoder's output is the canonical text |
| Ulid.Text32Order | runtime/internal/audit/writer.go:459-476 | fixed-width base-32 text orders as the numbers do |
| Ulid.IdOrder | runtime/internal/audit/writer.go:459-476 | ids order as their (millisecond, entropy) pairs and are equal only for equal pairs |
| Ulid.Digit32Is | runtime/internal/audit/writer.go:459-476 | ids are printed with the digits and the capitals without I, L, O and U |
| AuditEntry.EntryReads | runtime/internal/audit/entry.go:21-104 | an entry is recovered from the JSON object it is hashed as |
| AuditEntry.ContextIs | runtime/internal/audit/entry.go:51-59 | the object of a context has each field that is not empty under its own name, holding exactly that text, and no other member |
| AuditEntry.EntryIs | runtime/internal/audit/entry.go:24-49 | the object of an entry has its members under their own names: subject and context if and only if there are any, data if and only if it is not empty, the rest always, and no other |
| AuditEntry.CanonicalTextInjective | runtime/internal/audit/chain.go:31-41 | entries with the same canonical text agree on everything that is hashed |
| AuditEntry.SameHashSameLink | runtime/internal/audit/chain.go:15-41 | equal chain hashes mean equal predecessor hash and equal entry, or a SHA-256 collision |
| AuditEntry.HashIs | runtime/internal/audit/chain.go:31-41 | the hash is the prefix and the digest of the predecessor's hash followed by the text of the entry's object with its own hash blanked, a text that parses to that object |
| AuditEntry.HashUnique | runtime/internal/audit/chain.go:31-41 | and no other hash is, so one that differs is wrong |
| AuditLog.StoredScans | runtime/internal/audit/writer.go:491-512 | an entry stored as a row scans again as itself if and only if decoding its numbers through float64 leaves its data unchanged |
| AuditLog.StoredVerifies | runtime/internal/audit/writer.go:685-726 | a row stored for an entry hashed onto its predecessor verifies if its data decodes unchanged, and only then, but for a hash collision between the entry and what it decodes to |
| AuditLog.ExactDecodes | runtime/internal/audit/writer.go:562-606 | data whose numbers are integers within 2^53 decodes unchanged |
| AuditLog.BigNumberChanges | runtime/internal/audit/writer.go:562-606 | data with the number 2^53+1 does not, where float64 rounds it to 2^53 |
| AuditLog.ContextScans | runtime/internal/audit/writer.go:562-606 | a stored context scans back to the same context |
| AuditLog.ContextTextIs | runtime/internal/audit/writer.go:491-512 | the context column lists the fields that are not empty, in the order in which they are declared |
| AuditLog.LinkedHashLength | runtime/internal/audit/chain.go:15-41 | in a verified chain every predecessor hash has the one fixed length |
| AuditLog.LinkIs | runtime/internal/audit/writer.go:685-726 | a row is linked if and only if it scans, names the hash of the row before it, or the genesis hash, and carries the hash of the entry it scans to, chained from that |
| AuditLog.TamperEvidence | runtime/internal/audit/writer.go:685-726 | two logs that both verify and share a head hash hold the same entries, or a hash collision or a preimage of the genesis sentinel is extracted |
| AuditStore.OrderIsSorted | runtime/internal/audit/writer.go:685-700 | reading in id order gives every row once, sorted by id |
| AuditStore.IncreasingInOrder | runtime/internal/audit/writer.go:440-458 | rows whose ids increase in insertion order are read back in insertion order |
| AuditStore.HeadIs | runtime/internal/audit/writer.go:346-385 | the head is a row with the greatest id, and only an empty table has none |
| AuditStore.PreviousIs | runtime/internal/audit/writer.go:346-385 | the next entry is chained from the head's hash, or from the genesis hash if there is none or it is empty |
| AuditStore.NextUnique | runtime/internal/audit/writer.go:459-476 | what the retry loop may return is determined by its inputs |
| AuditStore.NextBound | runtime/internal/audit/writer.go:459-476 | the loop succeeds exactly when the last id is at most 98 ms ahead (or 99 ms with less entropy), with an id above the last one and at most 1 ms past the later clock |
| AuditStore.NextFailsFarAhead | runtime/internal/audit/writer.go:459-476 | with the last id 100 ms or more ahead it always fails |
| AuditStore.HashEntry | runtime/internal/audit/chain.go:31-41 | feeding the hasher step by step yields the chain hash: the digest of the predecessor's hash and the text of the object that has exactly the entry's members |
| AuditStore.MarshalContext | runtime/internal/audit/writer.go:491-512 | the context is stored as its fields that are not empty, in declaration order, and parses to an object with exactly those members |
| AuditStore.MarshalRow | runtime/internal/audit/writer.go:409-434 | the columns written are the entry's, each in its own place, empty data and absent context as NULL, the context parsing to its fields |
| AuditStore.Store.constructor | runtime/internal/audit/writer.go:136-214 | opening takes head hash and head id from the table |
| AuditStore.Store.ReadHead | runtime/internal/audit/writer.go:346-385 | reads the committed head's hash and raises the highest id seen, never lowers it |
| AuditStore.Store.NextID | runtime/internal/audit/writer.go:459-476 | the loop returns the first drawn id above the last one, or fails leaving the last id alone |
| AuditStore.Store.Append | runtime/internal/audit/writer.go:237-438 | on success exactly one row is appended: the entry with a fresh id and hash, the clock's time, chained from the row with the greatest id, and hashed as its own members; on any failure the table is as before, and without faults it fails only for lack of an id or a duplicate |
| AuditStore.Store.Verify | runtime/internal/audit/writer.go:685-726 | reports the first row in id order that is not chained from the one before by both its columns, and how many rows before it are |
| AuditStore.VerifyDecides | runtime/internal/audit/writer.go:685-726 | a chain that is intact is reported valid with all its rows checked |
| AuditRuns.StepKeeps | runtime/internal/audit/writer.go:237-438 | every step of every writer keeps the chain, the locks and what each writer has read |
| AuditRuns.RunKeeps | runtime/internal/audit/writer.go:237-438 | so does every run; it adds as many rows as it commits, after those that were there |
| AuditRuns.RunVerifies | runtime/internal/audit/writer.go:685-726 | after any interleaving, with failures anywhere, id order is commit order and each row links to its predecessor; Verify reports as many entries as commits if every committed entry's data decodes unchanged, and a valid chain only then, but for hash collisions |
| AuditRuns.FirstChangedBreaks | runtime/internal/audit/writer.go:685-726 | otherwise Verify reports the chain broken at the first entry that decoding changes, or fails if a number of it does not decode, but for a hash collision at it |
| AuditRuns.DecodingRunVerifies | runtime/internal/audit/writer.go:237-296 | a log to which only entries were appended whose data decodes unchanged verifies in full after every run |
| AuditRuns.RunAppends | runtime/internal/audit/writer.go:237-296 | a continued run only appends rows: what was committed is never changed |
| AuditRuns.AppendIsRun | runtime/internal/audit/writer.go:237-296 | an uninterrupted successful Append is a run of the interleaving model |
| MemoryInvariant.CountIsExact | runtime/internal/memory/store.go:589-598 | counting concatenated texts counts the distinct (namespace, entry) pairs, because an entity's links share its namespace |
| MemoryInvariant.CountNeedsOneNamespace | runtime/internal/memory/store.go:589-598 | without one shared namespace the texts of different pairs coincide |
| MemoryInvariant.InsertAliasesAdds | runtime/internal/memory/store.go:385-397 | inserting alias rows adds the missing ones for this entity and repoints none |
| MemoryInvariant.LookupFinds | runtime/internal/memory/store.go:312-328 | the lookup finds a row exactly when one of the aliases has one |
| MemoryInvariant.LookupIsFirst | runtime/internal/memory/store.go:312-328 | and then that of the first such alias |
| MemoryInvariant.UnionInOrder | runtime/internal/memory/store.go:868-882 | merging keeps the existing aliases in front and adds each incoming one that is not listed once, in the order of first occurrence |
| MemoryInvariant.UpsertEntityKeeps | runtime/internal/memory/store.go:312-403 | an upsert keeps every table invariant, only adds alias rows and covers the proposed window |
| MemoryInvariant.LinkEntityKeeps | runtime/internal/memory/store.go:572-603 | linking within the window keeps windows and alias rows right, and makes the entity's count right whatever was stale |
| MemoryInvariant.InsertLinkKeeps | runtime/internal/memory/store.go:580-588 | a link whose count is not refreshed leaves that one count stale and nothing else wrong |
| MemoryInvariant.UpsertThreadKeeps | runtime/internal/memory/store.go:461-529 | a thread upsert keeps every invariant and covers the proposed window |
| MemoryInvariant.LinkThreadKeeps | runtime/internal/memory/store.go:606-632 | linking an entry to its thread keeps windows right and makes the thread's count right whatever was stale |
| MemoryInvariant.UnlinkKeeps | runtime/internal/memory/store.go:636-689 | unlinking an entry leaves every cached count right, refreshed or not |
| MemoryInvariant.UnlinkSomeKeeps | runtime/internal/memory/store.go:636-689 | an unlink that fails at any statement leaves stale only counts of what it unlinked and did not refresh |
| MemoryInvariant.UnlinkSomeLeaves | runtime/internal/memory/store.go:636-689 | exactly the links of that entry in that namespace go, as far as the deletions work, the refreshed counts become the number of distinct texts and links left, and nothing else changes |
| MemoryInvariant.UnlinkRefreshes | runtime/internal/memory/store.go:636-689 | a whole unlink refreshes exactly the entities and threads that had links of the entry |
| MemoryRuns.ItemHasEmail | runtime/internal/memory/resolver.go:56-107 | every extracted proposal leads with an e-mail alias |
| MemoryRuns.StepKeeps | runtime/internal/memory/layer.go:123-192 | each store call, of any caller and failing at any statement, keeps the invariants but for stale counts, widens windows only and changes names only upwards |
| MemoryRuns.RunKeeps | runtime/internal/memory/layer.go:123-192 | in every interleaving of the store calls of Upserts and Deletes, also of several that hold the same link and of calls failing between their statements, the invariants hold but for stale counts, alias rows are never repointed and names only rise in rank |
| MemoryRuns.ReachableCounts | runtime/internal/memory/store.go:572-689 | in every reachable state each cached count is the number of links unless its last refresh failed, linked dates lie in the windows, and alias rows agree with the entities |
| MemoryRuns.WholeCallsHeal | runtime/internal/memory/store.go:572-689 | a call that does not fail makes no count stale and heals those it refreshes |
| MemoryRuns.WholeRunCounts | runtime/internal/memory/store.go:572-689 | in runs of calls that do not fail every count is right throughout |
| MemoryRuns.FirstAliasResolves | runtime/internal/memory/store.go:312-403 | after an upsert the leading alias names the entity it returned |
| MemoryRuns.SameAddressSameEntity | runtime/internal/memory/store.go:312-403 | every later upsert leading with that address in that namespace returns the same entity, whatever ran between |
| MemoryRuns.UpgradesExactly | runtime/internal/memory/store.go:889-908 | an upsert replaces a name that is there if and only if it has no space and the proposed one has, and fills in one that is not |
| MemoryRuns.NamesNeedSpaces | runtime/internal/memory/store.go:850-866 | in any run a name that is there is kept, or was without a space and gave way to one with; letters do not matter |
| MemoryRuns.NameChangesAtMostTwice | runtime/internal/memory/store.go:855-908 | an entity's canonical name changes at most twice in any run |
| MemoryRuns.UpsertIsRun | runtime/internal/memory/layer.go:232-275 | from any state of the interleaving model, one uninterrupted upsert is a run of it |
| MemoryRuns.DeleteIsStep | runtime/internal/memory/layer.go:180-192 | one delete that works is a step of it: no link of the entry is left, every other is, and no count goes stale |
| MemoryIdempotence.DeriveFromAbsorbs | runtime/internal/memory/layer.go:232-256 | the derivation loop leaves every address of the entry absorbed, also when several resolve to one entity |
| MemoryIdempotence.DeriveAbsorbs | runtime/internal/memory/layer.go:232-275 | an upsert keeps the invariants and leaves all it extracted absorbed and covered |
| MemoryIdempotence.UpsertTwice | runtime/internal/memory/layer.go:232-275 | a second upsert changes nothing if and only if the instants it stamps lie in the windows the first left |
| MemoryIdempotence.DatedUpsertIdempotent | runtime/internal/memory/layer.go:232-275 | for a dated entry the second upsert never changes anything |
| MemoryIdempotence.UndatedUpsertMoves | runtime/internal/memory/store.go:330-336 | for an undated entry some later clock moves a window, if and only if the entry names an address or a thread |
| MemoryIdempotence.RetryCompletes | runtime/internal/memory/layer.go:160-173 | upserting a dated entry again after its entity derivation failed at any statement, also between a link and its count, leaves exactly the tables of one derivation without failures |
| MemoryIdempotence.RetryCompletesThread | runtime/internal/memory/layer.go:160-173 | the same for the thread |
| MemoryIdempotence.DeriveWithKeeps | runtime/internal/memory/layer.go:160-173 | wherever derivation fails, the invariants hold but for the count of at most one entity and one thread, and windows only widen; without failures it is the plain derivation |
| MemoryIdempotence.DeleteUndoesUpsert | runtime/internal/memory/layer.go:123-192 | deleting an upserted entry leaves the links and counts that deleting it beforehand would; what the upsert created counts nothing, and its rows and windows stay |
| MemoryHeaders.LowerIs | runtime/internal/memory/resolver.go:87 | lower-casing changes the ASCII capitals, each to its small letter, and no other character |
| MemoryHeaders.TrimIs | runtime/internal/memory/resolver.go:83-91 | trimming cuts the white space at both ends and nothing else |
| MemoryHeaders.LocalPartIs | runtime/internal/memory/resolver.go:160-166 | the local part ends before the first at-sign; an address without one, or that starts with one, is its own |
| MemoryHeaders.DeriveSomeCame | runtime/internal/memory/layer.go:232-256 | the loop upserts and links exactly the addresses that its outcomes let it reach |
| MemoryHeaders.UpsertRecords | runtime/internal/memory/resolver.go:56-107 | after an upsert that fails anywhere, every address of from, to, cc and bcc whose round wrote its link has the row of its lower-cased text, its entity lists that and the trimmed name, and is linked to the entry in the header's role |
| MemoryHeaders.UpsertAddsOnly | runtime/internal/memory/resolver.go:56-107 | no row or link goes, and each new one comes from an address that was reached: the link in its header's role, dated as the entry, the row for its lower-cased text or trimmed name |
| MemoryHeaders.WorkingUpsertLinks | runtime/internal/memory/resolver.go:56-107 | when the store calls work, every address of the four headers is linked in its header's role |
| MemoryHeaders.NewLinksAreHeaders | runtime/internal/memory/resolver.go:56-107 | each link an upsert adds is that of an address of one of the four headers, in that header's role |
| MemoryHeaders.UpsertEntities | runtime/internal/memory/layer.go:232-256 | every entity afterwards, from what it was and from the addresses that name it: kind and namespace, aliases, canonical name, and the least window that holds the old one and every instant stamped; one that none names is unchanged |
| MemoryHeaders.UpsertThreads | runtime/internal/memory/layer.go:258-275 | an entry without a thread leaves threads alone; one with a thread leaves it with the subject unless that is empty, the least window, one link and an exact count, and changes nothing else |
| MemoryHeaders.NewAddress | runtime/internal/memory/resolver.go:87-107 | a first address that has no row makes exactly one person, named by trimmed name or local part, with its aliases in order, one instant and a count of one |
| MemoryStore.SeenKeyInjective | runtime/internal/memory/store.go:870-882 | the text an alias is remembered by determines the alias |
| MemoryStore.MergeAliases | runtime/internal/memory/store.go:868-882 | the loops over the seen map compute the ordered union of the alias lists: the existing ones first, then each new one once, in order |
| MemoryStore.Store.FindByAliases | runtime/internal/memory/store.go:312-328 | the loop returns the entity of the first alias with a row |
| MemoryStore.Store.InsertAliasRows | runtime/internal/memory/store.go:385-397 | the loop is INSERT OR IGNORE of each alias |
| MemoryStore.Store.UpsertEntity | runtime/internal/memory/store.go:297-403 | refuses incomplete proposals and dangling alias rows unchanged; otherwise leaves exactly the specified tables |
| MemoryStore.Store.UpsertThread | runtime/internal/memory/store.go:461-529 | refuses an unnamed thread unchanged; otherwise leaves exactly the specified tables |
| MemoryStore.Store.LinkEntityEntry | runtime/internal/memory/store.go:572-603 | links once and refreshes the count; fails unchanged exactly for a new link to a missing entity, and with the link written when the refresh fails |
| MemoryStore.Store.LinkThreadEntry | runtime/internal/memory/store.go:606-632 | the same for threads |
| MemoryStore.Store.UnlinkEntry | runtime/internal/memory/store.go:636-689 | drops the entry's links and refreshes what they touched, in any order, as far as its statements work |
| MemoryStore.Layer.DeriveEntities | runtime/internal/memory/layer.go:232-256 | the loop over extracted entities ends at the first failing store call, with the specified tables and the invariants kept |
| MemoryStore.Layer.DeriveThread | runtime/internal/memory/layer.go:258-275 | the same for the thread |
| MemoryStore.Layer.Upsert | runtime/internal/memory/layer.go:123-177 | without namespace or id, or when the adapter fails, nothing changes; otherwise entities and thread are derived, each as far as the statements of the store work, and the tables stay sound; when they all work, every address of from, to, cc and bcc has its row and its link in the header's role |
| MemoryStore.Layer.Delete | runtime/internal/memory/layer.go:180-192 | likewise, and otherwise the entry's links go and are counted as far as the statements work, exactly as specified if they all do |
| Transport.StepKeeps | runtime/internal/mcp/transport.go:153-449 | every atomic step keeps the pending table, channels, read loop and stop flags consistent |
| Transport.RunKeeps | runtime/internal/mcp/transport.go:153-449 | so does every interleaving of Requests, lines, cancellations, drain and Close |
| Transport.RepliesAreOwnAndSendsNeverBlock | runtime/internal/mcp/transport.go:276-292 | no reply channel is sent to twice, so no send blocks, not even under the lock, and a received response carries the caller's own id; that it arrives, and where its body is from, are `Transport.AnswerArrives` and `Transport.OutcomesAreExplained` |
| Transport.WaitingIsPending | runtime/internal/mcp/transport.go:358-395 | in every reachable state a Request that waits without an answer is in the pending table under its own id, unless its answer is being routed |
| Transport.AnswerArrives | runtime/internal/mcp/transport.go:276-292 | from every reachable state with the loop scanning and the transport not stopped, a response with the id of a waiting Request is read, routed, received and returned by it, body and all, and nobody else is touched |
| Transport.RequestIsAnswered | runtime/internal/mcp/transport.go:358-395 | so a new Request is written under the next number and returns the answer to that number |
| Transport.StrayAnswerIsDropped | runtime/internal/mcp/transport.go:276-292 | a response whose id no Request has changes nothing |
| Transport.OutcomesAreExplained | runtime/internal/mcp/transport.go:358-395 | in every run a returned response is, body included, one that a line of the run held, or the one a drain made up for that id; and every other outcome has its cause in the run |
| Transport.GivesUp | runtime/internal/mcp/transport.go:358-395 | a waiting Request that is cancelled, and one whose write fails, return just that and leave nothing in the table |
| Transport.RepliesGoToOneCaller | runtime/internal/mcp/transport.go:358-395 | no two callers ever receive responses with the same id |
| Transport.ClosesAreOnce | runtime/internal/mcp/transport.go:153-201 | the stop and done channels close at most once each, done only after stop |
| Transport.TableEmptiesOut | runtime/internal/mcp/transport.go:358-371 | once all Requests have returned the pending table is empty |
| Transport.ClosedNeedsStop | runtime/internal/mcp/transport.go:387-394 | in any run, no Request is told that the transport is closed unless it was stopped |
| Transport.CloseNeedsStart | runtime/internal/mcp/transport.go:139-167 | without Start nobody ever returns from Close |
| Transport.StoppedRequestProceeds | runtime/internal/mcp/transport.go:358-395 | once stopped, a Request has an enabled step nearer to returning whenever the lock is free |
| Transport.DrainProceeds | runtime/internal/mcp/transport.go:435-449 | while the drain holds the lock it has an enabled step that leaves less to drain |
| Transport.StepsNeverUndo | runtime/internal/mcp/transport.go:358-449 | no step sets a Request back, reopens the transport, or feeds a drain under way |
| Transport.StoppedRequestReturns | runtime/internal/mcp/transport.go:358-449 | from every stopped state every old or new Request returns by its own steps and the drain's alone, with the outcome it is leaving with if it has one |
| Transport.DrainedReturnsEither | runtime/internal/mcp/transport.go:383-394 | a waiting Request that the drain reaches can return the drain's response without an error, or the error that the transport is closed |
| Transport.DrainAnswersAll | runtime/internal/mcp/transport.go:435-449 | from the lock on, the drain by its own steps sends every Request in the table the response with its id, touches nobody else, and empties the table |
| Transport.LockDrains | runtime/internal/mcp/transport.go:190-222 | so everybody who is in the table when the read loop comes to take the lock is sent that response |
| Transport.ReaderFinishes | runtime/internal/mcp/transport.go:190-222 | whatever it was doing, the started read loop comes to its end by its own steps: it stops the transport, drains and closes the done channel |
| Transport.CloserWaits | runtime/internal/mcp/transport.go:153-167 | a Close gets by its own steps to where it waits for the read loop, and the first one has stopped the transport by then |
| Transport.CloseReturns | runtime/internal/mcp/transport.go:153-167 | on a transport that was started, a Close that no other is holding up returns by its own steps and the read loop's |
| TransportTable.Table.Register | runtime/internal/mcp/transport.go:363-366 | adds a fresh, empty channel under a new id |
| TransportTable.Table.Remove | runtime/internal/mcp/transport.go:367-371 | the deferred cleanup removes that id and nothing else |
| TransportTable.Table.Route | runtime/internal/mcp/transport.go:276-292 | delivers to the channel of the response's id, once, touching no other; drops it if there is none |
| TransportTable.Table.Drain | runtime/internal/mcp/transport.go:435-449 | every channel in the table gets one reply with its own id, in any order, and the table is emptied |
| Framing.ReadLoop | runtime/internal/mcp/transport.go:202-222 | the read loop hands over the non-empty lines in order, up to the line at which it finds the stop channel closed or one that does not fit |
| Framing.FramesScan | runtime/internal/mcp/transport.go:202-222 | splitting framed messages and a rest without newline yields them up to the first that with its newline exceeds 1 MiB, and then the rest |
| Framing.LineScans | runtime/internal/mcp/transport.go:202-222 | any line is yielded without its newline and one carriage return before that, unless it does not fit |
| Framing.RunKeepsOrder | runtime/internal/mcp/transport.go:416-430 | in every interleaving of writers, with writes failing at any byte, the stream is what the writes left, in lock order, plus the holder's part |
| Framing.WriteWrites | runtime/internal/mcp/transport.go:416-430 | a write that nothing disturbs puts the message and a newline on the wire and gives the lock back |
| Framing.LockedAre | runtime/internal/mcp/transport.go:416-430 | the order of the messages is the order in which their writers took the lock |
| Framing.ScannerReadsLines | runtime/internal/mcp/transport.go:202-222 | whatever writes failed, the scanner reads the lines that the writes made and then what was torn at the end |
| Framing.WritersFrame | runtime/internal/mcp/transport.go:416-430 | when no write fails, the scanner reads back exactly the messages in lock order if and only if each fits the limit |
| Framing.FramingSurvives | runtime/internal/mcp/transport.go:416-430 | with failing writes, the terminated lines are the completed messages in lock order if and only if every write that left bytes without a newline comes after all completed ones, and nothing else is read if and only if no failed write left bytes |
| Framing.TornWriteMerges | runtime/internal/mcp/transport.go:416-430 | from any state and for any writers and messages: a message torn after n bytes and the whole message written next make one line, the two joined |
| Envelope.TextParses | runtime/internal/mcp/protocol.go:63-91 | the written envelope parses to its members |
| Envelope.TextIs | runtime/internal/mcp/protocol.go:63-91 | the envelope is the version 2.0, the id unless it is a notification, and the method with its parameters, the result or the error, in that order and with nothing else |
| Envelope.ErrorReads | runtime/internal/mcp/protocol.go:86-95 | an error object reads back with its code, message and data |
| Envelope.DispatchClassifies | runtime/internal/mcp/transport.go:231-270 | dispatch reads a message as the kind it was sent as if and only if its id is non-null, its method named, its result present |
| Envelope.ObjectDispatched | runtime/internal/mcp/transport.go:231-270 | any object with an id and a result or an error is for a caller, even if it names a method; another with an id and a method is a request, one with a method alone a notification, and the rest is not recognised |
| Envelope.ParseErrorIsDropped | runtime/internal/mcp/protocol.go:124-128 | a parse-error response is not recognised by the peer |
| Envelope.PrintClean | runtime/internal/mcp/transport.go:416-430 | printed JSON holds no control character |
| Envelope.TextIsOneLine | runtime/internal/mcp/transport.go:416-430 | every envelope fills exactly one line |
| Envelope.MessagesArrive | runtime/internal/mcp/transport.go:202-270 | concurrent writers' messages arrive whole, in lock order, and as the kinds they were sent as, if no write fails |
| ScopeMatch.ListOf | runtime/internal/permission/match.go:238-256 | the loop decodes a list of strings, or refuses one with another item |
| ScopeMatch.HasIntersection | runtime/internal/permission/match.go:214-225 | true exactly when the lists share an element |
| ScopeMatch.IsSubset | runtime/internal/permission/match.go:138-147 | true exactly when every attempted element is allowed |
| ScopeMatch.MatchGlobs | runtime/internal/permission/match.go:74-94 | true exactly when some pattern matches |
| ScopeMatch.MatchRange | runtime/internal/permission/match.go:166-182 | true exactly when the attempted instant parses and lies in the inclusive range |
| ScopeMatch.MatchSets | runtime/internal/permission/match.go:108-164 | the three set primitives, including values that do not decode |
| ScopeMatch.MatchValue | runtime/internal/permission/match.go:38-58 | all eight primitives, unknown ones rejecting |
| ScopeMatch.MatchesExactly | runtime/internal/permission/match.go:60-198 | when a value matches, primitive by primitive, by the texts and instants that scope and attempt hold |
| ScopeMatch.MatchScope | runtime/internal/permission/match.go:16-33 | visiting the schema in any order decides whether every constrained dimension is attempted and matches |
| ScopeMatch.WiderKeepsMatch | runtime/internal/permission/match.go:60-198 | under each primitive a wider scope value loses no match |
| ScopeMatch.WiderScopeKeepsMatch | runtime/internal/permission/match.go:16-33 | a pointwise wider scope loses no match |
| ScopeMatch.WiderIsExact | runtime/internal/permission/match.go:60-164 | for five primitives the width test fails exactly where some attempt would be lost |
| ScopeMatch.UnparsedBoundDrops | runtime/internal/permission/match.go:277-295 | for every scope, a bound that is absent or does not parse can be dropped without changing what the range matches |
| ScopeMatch.UnboundedExactly | runtime/internal/permission/match.go:166-182 | a range matches every attempt that carries an instant if and only if neither bound is there and parses |
| ScopeMatch.UntilIsInclusive | runtime/internal/permission/match.go:166-182 | for every range and attempt the range test agrees with an exclusive upper bound if and only if the attempt is not the instant of the upper bound, or the lower bound rejects it |
| ScopeMatch.UntilMatches | runtime/internal/permission/match.go:166-182 | the upper bound itself matches, the next instant does not |
| Permission.FirstMatchIs | runtime/internal/permission/engine.go:123-127 | the deciding grant matches and none before it does |
| Permission.FirstMatchDecides | runtime/internal/permission/engine.go:123-168 | the first grant that matches allows if and only if neither the capability's default nor the grant asks for approval, and otherwise an approval for that grant is needed |
| Permission.DeniedIffNoMatch | runtime/internal/permission/engine.go:123-168 | access is denied exactly when no listed grant matches, whatever the order |
| Permission.MoreGrantsNeverDeny | runtime/internal/permission/engine.go:123-168 | adding grants never turns a non-denial into a denial |
| Permission.WiderGrantsNeverDeny | runtime/internal/permission/engine.go:123-168 | widening grants never turns a non-denial into a denial |
| Permission.DefaultNeverAllows | runtime/internal/permission/engine.go:129-132 | no grant relaxes a capability's default approval |
| Permission.TextsAreOrdered | runtime/internal/permission/store.go:681-689 | comparing the texts of issue times is a weak order, however instants are written |
| Permission.LeastDecides | runtime/internal/permission/store.go:681-689 | in every listing ordered by issue text, the grant that decides has the least text among the matching ones |
| Permission.LeastMayDecide | runtime/internal/permission/store.go:681-689 | and each matching grant with the least text decides in some listing the query may yield |
| Permission.OrdersAgreeExactly | runtime/internal/permission/store.go:681-689 | for any two orders of grants, with ties broken in any way, the kind of decision is the same if and only if the matching grants least by one and those least by the other agree on asking |
| Permission.IssueOrderExactly | runtime/internal/permission/engine.go:91-92 | so walking grants by the text of their issue time decides in the same kind as walking them in the order of issue if and only if those first by text and those first by time agree on asking, however instants are written |
| Permission.TextOrderMatters | runtime/internal/permission/engine.go:91-92 | a grant issued at .3 s that allows and one at .31 s that asks: by time access is allowed, by text the user is asked |
| Permission.TiesMatterExactly | runtime/internal/permission/store.go:681-689 | how ties of issue texts are broken makes no difference to whether the user is asked if and only if the matching grants with the least text agree on asking |
| PermissionEngine.Engine.RegisterCapability | runtime/internal/permission/store.go:364-380 | a capability is defined once: the same definition again is accepted and another refused, as is one declared by a capsule under one of the five reserved prefixes; a new one is stored with its namespace or that of its name; a failure changes nothing |
| PermissionEngine.RegisteredAgain | runtime/internal/permission/store.go:364-407 | registering a new definition twice succeeds if and only if it named its namespace, or has an empty one anyway |
| PermissionEngine.Engine.ListForCheck | runtime/internal/permission/store.go:681-689 | yields exactly the active grants of the principal for the capability, each once, ordered by issue text with ties in any order |
| PermissionEngine.ListingIs | runtime/internal/permission/store.go:681-689 | a complete listing holds exactly the grants of the principal for the capability that are neither revoked nor expired by the texts of the instants |
| PermissionEngine.Engine.ListGrants | runtime/internal/permission/store.go:622-679 | yields active grants newest first, each once, up to the limit, leaving out none newer than one it yields |
| PermissionEngine.CascadeListingIs | runtime/internal/permission/store.go:622-679 | what a cascade lists: active grants of the principal, newest first, all of them or ten thousand, leaving out none newer |
| PermissionEngine.FindMatch | runtime/internal/permission/engine.go:123-127 | the loop returns the first grant of the listing that matches |
| PermissionEngine.KeptAll | runtime/internal/permission/engine.go:97-102 | when the audit log takes every entry all are kept, in order |
| PermissionEngine.Engine.Check | runtime/internal/permission/engine.go:103-168 | over all active grants in issue order, access is denied if and only if none matches, and the first that does allows if and only if neither the default nor the grant asks; it is audited once, asking files one approval, nothing else changes; a failing lookup, listing or approval write fails the check unrecorded |
| PermissionEngine.Engine.IssueGrant | runtime/internal/permission/store.go:514-561 | refuses unknown capabilities and fields, and database errors, unchanged; otherwise stores one new grant tightened to the default approval, and audits it |
| PermissionEngine.Engine.RevokeGrant | runtime/internal/permission/engine.go:214-242 | revokes and audits once; again it changes and emits nothing, and so does a database error |
| PermissionEngine.Engine.ResolveApproval | runtime/internal/permission/engine.go:260-272 | a pending approval is decided once; every other call fails unchanged with the reason; if it cannot be read back it stays decided, unaudited, and the call fails |
| PermissionEngine.Engine.RevokeEach | runtime/internal/permission/clients.go:247-260 | exactly the listed grants are revoked, each with one audit entry, in order |
| PermissionEngine.RevokedRows | runtime/internal/permission/clients.go:247-260 | exactly the listed grants are stamped, and the others are what they were |
| PermissionEngine.CascadeEntries | runtime/internal/permission/clients.go:247-260 | each with the actor, or the user if none is given, and the reason extended by the client |
| PermissionEngine.Engine.RevokeClient | runtime/internal/permission/clients.go:223-281 | the listed grants, newest first, and then the client are revoked, with one entry per grant and one carrying their number; a database error at any point stops it there with what was revoked staying so; idempotent |
| PermissionEngine.Engine.AuthenticateClient | runtime/internal/permission/clients.go:184-216 | decides as specified and audits every failure with its reason, the attempted id included; a database error is passed on unaudited |
| PermissionEngine.CascadeComplete | runtime/internal/permission/clients.go:238-260 | after the cascade no active grant is left if and only if there were at most 10,000 |
| PermissionEngine.ChangesKeep | runtime/internal/permission/store.go:364-561 | any sequence of registrations, issues and revocations keeps every stored grant within its capability's fields and default approval |
| PermissionEngine.DefaultIsKept | runtime/internal/permission/store.go:514-524 | after any such sequence from the empty store no grant relaxes its capability's default approval, and no listing of them lets an access through without the user |
| Revocation.StepKeeps | runtime/internal/permission/clients.go:223-281 | each step of the revocation, of checks and of others who issue and revoke, keeps the listed grants accounted for: revoked as far as handled, and otherwise revoked only by others |
| Revocation.RunKeeps | runtime/internal/permission/clients.go:223-281 | so does every run, with the revocation failing anywhere; the entries written match the progress, and grants only get revoked |
| Revocation.CascadeOnReturn | runtime/internal/permission/clients.go:223-281 | whenever the revocation returns, in any run and however instants sort as text: the client is marked, the log has an entry for each listed grant not revoked by others and one with their number, no listed grant is active at any reading, and, within the limit, those active at a reading are exactly the unrevoked ones unexpired at it that were issued since the listing or had expired by its reading |
| Revocation.CascadeInTime | runtime/internal/permission/clients.go:223-281 | so where texts sort as instants, the clock goes forward and nothing is issued, the client has no active grant from then on |
| Revocation.ExpiredGrantReturns | runtime/internal/permission/store.go:681-689 | with fractions of a second as RFC 3339 text, a run in which a grant that had expired at .3 s is active again at .31 s and a check begun after the revocation returned allows |
| Revocation.LaterChecksExactly | runtime/internal/permission/engine.go:103-168 | a check that begins after the revocation has returned denies if and only if no matching grant issued since the listing, or expired by its reading, is unrevoked and unexpired at the check's reading |
| Revocation.LaterChecksDeny | runtime/internal/permission/clients.go:223-281 | so where texts sort as instants, the clock goes forward and nothing is issued, every such check denies |
| Revocation.RevokeClientIsRun | runtime/internal/permission/clients.go:223-281 | one call of the engine's RevokeClient, stopping at any failure or not, is a run of these steps with the tables and entries of its contract |
| Revocation.RevokedClientNeverAuthenticates | runtime/internal/permission/clients.go:201-204 | no token authenticates as a revoked client |
| Revocation.CheckExactly | runtime/internal/permission/engine.go:103-168 | in every run a check denies if and only if no grant active at the reading of its one listing matches, and otherwise rests on one that does and than which no other that does sorts earlier |
| Revocation.RevokedNeverMatched | runtime/internal/permission/engine.go:103-168 | no check that begins after a grant was revoked rests on it |
| Revocation.CheckKeepsListing | runtime/internal/permission/engine.go:103-168 | whatever runs meanwhile, a check decides by the listing it read, once |
| Revocation.StaleCheckExactly | runtime/internal/permission/clients.go:232-237 | in every run, also after the revocation has returned, a check denies if and only if no grant of the listing it read matches, rests on a grant if and only if that is the first match of the listing, and allows if and only if neither that nor the default asks |
| Revocation.StaleCheckStillDecides | runtime/internal/permission/clients.go:232-237 | whatever a check would decide when it reads its listing just before a revocation, it can decide after the revocation has returned |
| Revocation.StaleCheckMayAllow | runtime/internal/permission/clients.go:232-237 | a run in which such a check allows after the revocation has returned |
| Tokens.DecodeEncode | runtime/internal/permission/clients.go:355-361 | base64url decoding undoes encoding for every byte string |
| Tokens.SplitAssemble | runtime/internal/permission/clients.go:355-386 | splitting undoes assembling if and only if the id has the prefix and no underscore and the secret has 32 bytes |
| Tokens.SplitTokenIs | runtime/internal/permission/clients.go:363-386 | a text is a token if and only if it is the prefix, an id and a payload joined by underscores, the id without one and with its prefix, the payload decoding to 32 bytes |
| Tokens.UnderscoreInSecret | runtime/internal/permission/clients.go:355-361 | secrets of the full 32 bytes do encode with underscores |
| Tokens.UnhexHex | runtime/internal/permission/clients.go:388-408 | hexadecimal decoding undoes encoding |
| Tokens.HashesCompare | runtime/internal/permission/clients.go:388-408 | comparing stored and presented hashes compares the digests |
| Pairing.ClientIdShape | runtime/internal/permission/store.go:909-914 | client ids have the shape tokens need and differ when their ULIDs do |
| Pairing.StepKeeps | runtime/internal/permission/clients.go:118-169 | every step of every redemption keeps codes, clients and secrets in agreement |
| Pairing.RunKeeps | runtime/internal/permission/clients.go:118-169 | so does every run; completed redemptions, clients and revocations last |
| Pairing.OneClientPerCode | runtime/internal/permission/store.go:1160-1185 | however redemptions interleave, one code makes at most one client |
| Pairing.ClientsComeFromCodes | runtime/internal/permission/clients.go:132-156 | every client was made by a redemption of the code whose row names it |
| Pairing.ClientsAreNamed | runtime/internal/permission/clients.go:144-152 | in any run, every client carries the name its code was created for |
| Pairing.TokenAuthenticates | runtime/internal/permission/clients.go:118-216 | a token handed out authenticates as its own client in every later state until that client is revoked, and never again after |
| Pairing.AuthenticatesExactly | runtime/internal/permission/clients.go:184-216 | a text authenticates as a client if and only if it is a token of that client, who is known and not revoked, and whose stored hash spells the digest of the token's secret; it tells of a revocation exactly for a revoked client |
| Pairing.RedemptionPairs | runtime/internal/permission/clients.go:118-169 | from every reachable state, a redemption of a code that is there, not redeemed and not expired completes by its own two statements: the code names the client, the client has the code's name and the secret's hash, and the token authenticates |
| Pairing.CodePairs | runtime/internal/permission/clients.go:69-169 | so a code that is created and redeemed before it expires makes a client of the name it was created for |
| Pairing.RevokedForGood | runtime/internal/permission/clients.go:201-204 | once a client was revoked no token authenticates as it, however the run goes on, and its own tokens are told why |
| Pairing.WinnerIsFirst | runtime/internal/permission/store.go:1162-1185 | in any continuation of a run, a code that was redeemed is won by nobody else, and one that was not is won exactly by the redemption whose update first finds it redeemable |
| Pairing.WinnerFoundRedeemable | runtime/internal/permission/store.go:1162-1185 | a code is won only by an update that finds it there, not redeemed and not expired |
| Pairing.CodeGoesToFirst | runtime/internal/permission/store.go:1162-1185 | in every run the winner of a code is the redemption of that first update; every other one that was told anything was refused, as redeemed only if somebody won, as unknown only if the code was unknown to it |
| Pairing.RefusalIsExact | runtime/internal/permission/store.go:1170-1183 | a losing redemption is told exactly why its update failed, unless the code is created or won before it asks |
| Pairing.RefusalIs | runtime/internal/permission/store.go:1170-1183 | a code is refused as unknown exactly if it is, and as redeemed exactly if somebody redeemed it |
| Pairing.ExplainTells | runtime/internal/permission/store.go:1170-1183 | a redemption that lost is told what the code's row says when it asks, and nothing else changes |
| Process.StepKeeps | runtime/internal/capsule/process.go:150-337 | each atomic step keeps guard, watcher and state in agreement and moves the state forward only |
| Process.RunMovesOn | runtime/internal/capsule/process.go:158-337 | in every interleaving the state's rank never falls, and Exited and Failed are final |
| Process.ClosedMeansExited | runtime/internal/capsule/process.go:248-258 | the exit channel closes at most once, and then the state is Exited, never Stopping |
| Process.SwappedOrderStrands | runtime/internal/capsule/process.go:248-258 | with the watcher's two swaps the other way round some run closes the exit channel and leaves the state in Stopping, which `Process.ClosedMeansExited` excludes for the source's order |
| Process.DeadProcessExits | runtime/internal/capsule/process.go:248-258 | a started process that died reaches Exited by the watcher's own steps |
| Process.StartRuns | runtime/internal/capsule/process.go:150-222 | a process that nobody started is running, and its start reports no error, once Start has made its steps |
| Process.StopBringsDown | runtime/internal/capsule/process.go:299-337 | a Stop of a started process brings it to Exited and returns, whatever the process does, by its own steps and the watcher's: when its deadline passes it kills the process |
| Process.CallsRead | runtime/internal/capsule/process.go:277-305 | which Stops return at once and which Waits are refused, by the state they read |
| Process.WaitAfterExit | runtime/internal/capsule/process.go:277-286 | a Wait that begins after the exit channel was closed returns by its own steps |
| Process.BlockedWaitCanReturn | runtime/internal/capsule/process.go:277-286 | a blocked Wait of a process that has not failed returns in some continuation |
| Process.WaitReturnsUnlessFailed | runtime/internal/capsule/process.go:277-286 | in every reachable state a blocked Wait can still return if and only if the process has not failed |
| Process.WaitOutlivesFailure | runtime/internal/capsule/process.go:277-286 | a Wait that read the state before the start failed stays blocked in every continuation |
| Process.WaitDuringFailedStart | runtime/internal/capsule/process.go:277-286 | such a Wait exists |
| Process.StartErrorExactly | runtime/internal/capsule/process.go:150-246 | in every run a Start reports an error if and only if it was the one inside the guard and the start failed |
| Process.LaterStartReportsNothing | runtime/internal/capsule/process.go:150-156 | a Start that begins after the failure reports no error, in any continuation |
| CapsuleInstaller.Installer.RollbackGrants | runtime/internal/capsule/installer.go:122-126 | each issued grant ends revoked if and only if its revocation does not fail; no other is touched |
| CapsuleInstaller.Installer.IssueGrants | runtime/internal/capsule/installer.go:128-146 | succeeds exactly when every permission can be issued; what was issued is the manifest's first permissions, under new ids, each with its audit entry |
| CapsuleInstaller.AllIssueIs | runtime/internal/capsule/installer.go:128-146 | every grant can be issued if and only if each capability is known, each scope names only its fields, and no step fails |
| CapsuleInstaller.InstalledGrants | runtime/internal/capsule/installer.go:128-146 | the grants of an install: one for each permission, to the capsule, with its capability and scope, asking if the permission or the capability does, without an end and not revoked; no other comes, goes or changes |
| CapsuleInstaller.LeftBehindGrants | runtime/internal/capsule/installer.go:120-126 | the grants a failed install leaves: the older ones as they were, and the issued ones, each revoked unless its own revocation failed |
| CapsuleInstaller.Installer.RollBack | runtime/internal/capsule/installer.go:120-126 | the grants there were before are untouched, each issued one is revoked unless its revocation failed, and the code directory is gone unless its removal failed |
| CapsuleInstaller.Installer.Install | runtime/internal/capsule/installer.go:95-199 | success exactly when no step fails, with record, directory and the manifest's grants; the error names the first step that failed; before the copy a failure changes nothing, after it record and directory are gone as far as removing them works, older grants are untouched, and each issued one is revoked unless its revocation failed, every change with its audit entry |
| CapsuleInstaller.Installer.Uninstall | runtime/internal/capsule/installer.go:213-275 | revokes the capsule's listed grants, newest first, each with its audit entry, or those before the first revocation that fails, and then nothing else changes; on success record and directory are gone, the number is reported and a failing bridge is recorded |
| CapsuleInstaller.FailedInstallActive | runtime/internal/capsule/installer.go:120-179 | after a failed install the active grants are those from before and the issued ones whose revocation failed; so they are unchanged if and only if no revocation of an issued grant failed |
| CapsuleInstaller.InstallAddsManifest | runtime/internal/capsule/installer.go:128-146 | a successful install adds exactly the manifest's permissions, and nothing else, to the active grants that the capsule's name holds |
| CapsuleInstaller.InstalledGrantsAreManifest | runtime/internal/capsule/installer.go:128-146 | so they are exactly the manifest's permissions if and only if the name held none before |
| InstallRuns.OneInstallPerName | runtime/internal/capsule/store.go:245-263 | however installs interleave, at most one of each name has its record |
| InstallRuns.FailedTakesBack | runtime/internal/capsule/installer.go:120-179 | however installs interleave, one that fails ends with neither a record nor grants if its own deletion and revocations work |
| InstallRuns.InstalledStays | runtime/internal/capsule/installer.go:95-199 | an installed capsule keeps its record and its grants in every run of other installs |
| InstallRuns.CodeLostExactly | runtime/internal/capsule/installer.go:101-179 | in every reachable state the code directory of an installed capsule can be removed under it if and only if another install of the same name and version found the name free and has not finished |
| InstallRuns.WinnerMayLoseCode | runtime/internal/capsule/installer.go:101-179 | for every capsule, two installs at once can end with one installed and its code removed by the other |

## Left out

- Console, CLI, HTTP handlers, server-sent events, static files, wizard state, host start and stop, the ingestor scheduler, OAuth, configuration and profiles: presentation, I/O, or checks of one branch.
- SHA-256, ULID generation, `path.Match`, mail header parsing, YAML and the SQL engines: parameters with the small contracts stated above. Cryptographic strength is never assumed; collisions and preimages are named where they could occur.
- Strings are sequences of characters, so invalid UTF-8, Unicode case folding and Unicode white space are not modelled; framing limits count characters, which are bytes for ASCII text.
- Case-insensitive matching of JSON field names when envelopes and contexts are decoded.
- Timestamps are compared as instants, except where the source compares stored text: there the comparison is a parameter, and the order of listings is the order it gives.
- Integer wrap-around of request ids after 2^63 requests.
- The memory layer on Postgres: its statements rely on SQLite's INSERT OR IGNORE. Agreement between the vector adapter and the index is not claimed, since an upsert without a vector skips the adapter.
- Transport.StoppedRequestReturns: writes to the peer are taken to return, with success or an error; a write that blocks for ever is not modelled. Handlers of inbound requests touch none of the modelled state and are left out.
- CapsuleInstaller.Installer.Install: the file tree a failed code copy leaves behind, and manifest validation, are not modelled. Uninstalls are not among the steps of InstallRuns.
- PermissionEngine.Engine.RegisterCapability: a scope schema is compared as given, not as decoded from its stored JSON.
- Process.ClosedMeansExited: signals and pipes are reduced to the subprocess being alive or dead.
