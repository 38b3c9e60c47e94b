# qid in Dafny

A model of the parts of the qid identity server that carry its hardest promises, with proofs of those promises.

- **Search filters.** `FilterGrammar`, `FilterSpelling`, `FilterRoundTrip`, `FilterEscapes` and `LdapFilter` model the LDAP filter parser and the printer used to sanitize filters (section 3 of RFC 4515), over `Utf8` octets (section 3 of RFC 3629).
- **Directory reconciliation.** `Directory`, `SyncPlan`, `LdapSync` and `SyncTheorems` model snapshot sync of the users one provider owns in a shared table; `Lifecycle`, `BreakGlassUsers` and `SlaAudit` follow the deprovisioning timestamp and the break-glass mark over whole runs and the audit that reads the timestamp; `HrProjection` and `HrImport` model the two planners of an HR batch; `MixedRuns` follows the audit over runs of syncs and imports; `GroupExpansion` and `ManagerChain` model the two graph walks.
- **Configuration.** `ConfigIncludes` models the include loader: a depth-first topological sort with cycle detection, over `Graphs`.
- **Caches and replay guards.** `CacheKeys`, `Caches`, `SharedSessions` and `Replay` model the two-level caches, their use by several instances, and single-use token ids and nonces (sections 8 and 11.1 of RFC 9449).
- **CSV import.** `CsvRows`, `RowFold`, `CsvRecords`, `CsvRoundTrip` and `CsvTolerance` model the row scanner (section 2 of RFC 4180) and the HR records read from it.
- **Signing keys.** `Keyring` and `KeyRotation` model key rotation.
- **Failure budget.** `Throttle`, `FailureLog` and `ForgottenKeys` model the windowed failure counter with eviction.
- **Paged search.** `PagedSearch` models the search loop against an arbitrary server (section 3 of RFC 2696).
- **Admin approvals.** `AdminAuthz` and `ApprovalRuns` model one-use approvals under every interleaving of requests.

`Wrappers`, `Numbers` and `Text` hold the shared vocabulary. `dafny verify dfyconfig.toml` checks the whole project.

## How the model is built

Code that updates fields or variables step by step is a class or a method with loops, proved against a function or predicate on values; what the source promises is then proved of that function or predicate. Concurrency is a state machine whose steps are the atomic actions of the code. A clock reading, a fresh id, the outcome of a repository write, the key pair a PEM text holds, and the answers of a directory server are parameters. Text is a sequence of Unicode scalar values, as in the source; positions count characters where the source counts bytes, which changes no result because every position the parser keeps lies between characters. A CSV event is compared in ASCII case where the source lower-cases it in Unicode, which changes no result because no other character lower-cases to a letter of an event's name.

Where the code falls short of what one would expect of it, the model keeps the code and proves the exact condition:

- Sanitizing an LDAP filter preserves its meaning if and only if no substring assertion in it consists of wildcards alone (`SanitizePreservesFilterIff`, `AllWildcardIsNotPreserved`).
- A deprovisioning event without a provider keeps its Met verdict over a run if and only if no accepted snapshot of another provider in that realm lists the external id (`LegacyMetStaysMetIff`, `LegacyMetCanBeLost`). Once HR imports run too, a leaver record stamps the user anew, so Met stays Met without reactivation if and only if the last such record also came in time (`MetOverMixedRunIff`, `LateLeaverLosesMet`).
- Printed CSV rows come back if and only if every row has a cell and no line ended by a bare carriage return is followed by a line that prints as a line feed alone, since the two then read as one break (`PrintedComesBackIff`, `EmptyRowIsLost`, `MergedRowIsLost`).
- A decodable key stays decodable under its kid through a step exactly as `StepKeepsKeyIff` says of each of the five steps, and over a run exactly when every step keeps it (`DecodesThroughIff`). In particular, loading an active key keeps the old one exactly when it is the same key under the same kid, or another kid is loaded and the old one is also previous or next (`LoadActiveKeepsOldIff`, `SecondActiveDropsFirst`, `ReloadReplacesActive`); rotation drops a young active key exactly when its kid is empty and another replaces it (`RotateKeepsActiveIff`, `RotationDropsEmptyKid`); a loaded key's JWK is the published one if and only if the first JWK stored for its kid, if there is one, has the same public half (`LoadPublishesIff`, `ReloadHidesNewKey`).
- The failure budget bounds checking clients up to a time if and only if that time is before the last representable second (`ThrottledIff`); the bound is one less than twice the limit and is reached (`BoundIsReached`). With more keys than entries a spent key can be forgotten inside its window, exactly when the map is full, the failing key is new and nothing in the map is older (`CanForgetIff`, `MustForgetIff`, `SpentKeyIsForgotten`); the bound still holds for a key while fewer than 1024 other keys fail in each of its windows (`ClientIsThrottledAmongMany`).
- A server that fills its pages and stays within the ceiling is read completely unless its last page is empty and it holds exactly the ceiling (`FilledIsReadIff`); such a server exists if and only if the page size divides the ceiling (`SomeFilledIsRefusedIff`).
- A request that reaches its approval is refused all the same, with the approval used up, if and only if the store could not be saved or the path names another tenant (`UsedUpButRefusedIff`).

## Model

| member | source | states |
|---|---|---|
| Text.WhitespaceTable | qid-directory/src/ldap_filter.rs:424 | white space is the 25 code points of the Unicode property that trimming removes |
| Text.TrimPadded | qid-directory/src/csv.rs:188-192 | white space around a text is trimmed away, however much of it |
| Text.TrimKeeps | qid-directory/src/csv.rs:188-192 | a text that neither starts nor ends with white space is left as it is |
| Text.AsciiLowerIs | qid-directory/src/lib.rs:516-519 | ignoring ASCII case takes each capital to the small letter in its place and changes no other character |
| Utf8.DecodeIffEncoding | qid-directory/src/ldap_filter.rs:330-332 | octets decode to a text exactly when they are that text's UTF-8 encoding, so escapes that are not UTF-8 are refused |
| Utf8.ByteLenIs | qid-directory/src/csv.rs:53-63 | sizes count one to four octets for each character, by its code point |
| LdapFilter.UnescapeFilterValue | qid-directory/src/ldap_filter.rs:310-333 | the loop over raw characters returns the text its escapes and characters spell, each escape in hex digits of either case, and fails on bad hex, short escapes and octets that are not UTF-8 |
| LdapFilter.EscapeFilterValue | qid-directory/src/ldap_filter.rs:336-359 | the loop writes each special, control or non-ASCII character as hex escapes of its octets |
| FilterEscapes.HexDigitIff | qid-directory/src/ldap_filter.rs:314-319 | a character is the hex digit of a value exactly when it is that value's digit in the lower-case or the upper-case alphabet |
| FilterEscapes.DigitCaseDoesNotMatter | qid-directory/src/ldap_filter.rs:310-333 | a raw value stands for the same text, or fails alike, whatever the case of its escapes' digits |
| FilterEscapes.EscapeByteText | qid-directory/src/ldap_filter.rs:336-359 | an escape is a backslash and the octet's two lower-case hex digits, the high one first |
| FilterEscapes.EscapeIsAscii | qid-directory/src/ldap_filter.rs:336-359 | an escaped value holds no control code and nothing outside ASCII |
| FilterEscapes.EscapeKeepsIff | qid-directory/src/ldap_filter.rs:336-359 | a value is printed as it is exactly when it is ASCII without control codes, stars, brackets and backslashes |
| FilterEscapes.AttrCharIff | qid-directory/src/ldap_filter.rs:270-286 | attribute names are made of letters of either case, digits, hyphens and dots, and nothing else |
| LdapFilter.SplitSubstring | qid-directory/src/ldap_filter.rs:219-248 | the scan with its flags returns the pieces between the stars of the raw text: first, inner and last |
| LdapFilter.UnescapeParts | qid-directory/src/ldap_filter.rs:250-267 | the collected parts are unescaped with empty ones dropped, or the first bad escape is reported |
| LdapFilter.Parser.ScanAssertion | qid-directory/src/ldap_filter.rs:184-211 | the value ends at the first bracket no escape quotes, and a star before it makes it a substring |
| LdapFilter.Parser.ParseEqualityOrSubstring | qid-directory/src/ldap_filter.rs:184-268 | consumes exactly one equality or substring value and returns what it stands for |
| LdapFilter.Parser.ParseSimpleFilter | qid-directory/src/ldap_filter.rs:135-182 | consumes an attribute, its relation and value; presence, ordering, approximate and extensible forms each take their own outcome |
| LdapFilter.Parser.ParseFilter | qid-directory/src/ldap_filter.rs:89-94 | consumes one bracketed filter from the position it started at, or fails |
| LdapFilter.Parser.ParseFilterInner | qid-directory/src/ldap_filter.rs:96-133 | reads the operator and its operands; empty and/or lists fail |
| LdapFilter.ParseLdapFilter | qid-directory/src/ldap_filter.rs:423-435 | the whole trimmed input is one filter, or there is an error |
| LdapFilter.SanitizeAdminSearchFilter | qid-directory/src/ldap_filter.rs:445-448 | returns the print of the parsed filter, or the parse error; sanitizing the result changes nothing, and it reads back as the same filter unless a substring is all wildcard |
| FilterRoundTrip.UnescapeEscape | qid-directory/src/ldap_filter.rs:310-359 | unescaping an escaped value gives it back, for every Unicode text |
| FilterRoundTrip.SubstringRoundTrip | qid-directory/src/ldap_filter.rs:184-268 | a printed substring with at least one part and no empty part is read back as itself |
| FilterRoundTrip.PrintSpells | qid-directory/src/ldap_filter.rs:366-415 | the print of every filter the parser can produce spells its normal form in the grammar |
| FilterRoundTrip.RoundTrip | qid-directory/src/ldap_filter.rs:366-435 | parsing the print of every well-formed filter gives exactly that filter |
| FilterRoundTrip.ParsePrinted | qid-directory/src/ldap_filter.rs:366-435 | parsing the print of every filter the parser can produce gives its normal form, in which an all-wildcard substring is the empty equality |
| FilterRoundTrip.PrintInjective | qid-directory/src/ldap_filter.rs:366-415 | two well-formed filters with the same print are the same filter |
| FilterRoundTrip.ParsedIsLegal | qid-directory/src/ldap_filter.rs:96-286 | every accepted input has legal non-empty attributes, non-empty and/or lists and no empty substring part |
| FilterSpelling.ReadsSpelled | qid-directory/src/ldap_filter.rs:89-304 | whatever the grammar spells at the front of a text is read as that filter, and exactly the rest is left |
| FilterSpelling.FilterSpells | qid-directory/src/ldap_filter.rs:89-304 | whatever is read from the front of a text is spelled there by the grammar |
| FilterSpelling.ParsesIffSpelled | qid-directory/src/ldap_filter.rs:423-435 | an input parses to a filter if and only if, without white space around it, it spells that filter in a grammar given without a parser; everything else is refused |
| FilterSpelling.SurroundingSpaceIsIgnored | qid-directory/src/ldap_filter.rs:423-435 | white space around an input changes neither the filter nor the error |
| FilterSpelling.SpellingIsUnambiguous | qid-directory/src/ldap_filter.rs:89-304 | no text spells two filters |
| FilterRoundTrip.SanitizeIdempotent | qid-directory/src/ldap_filter.rs:445-448 | sanitizing an accepted input twice is the same as sanitizing it once |
| FilterRoundTrip.SanitizePreservesFilterIff | qid-directory/src/ldap_filter.rs:366-448 | the sanitized text parses to the same filter if and only if no substring assertion is all wildcard |
| FilterRoundTrip.EmptySubstringIff | qid-directory/src/ldap_filter.rs:219-267 | a substring text yields no part at all exactly when it is made of stars alone |
| FilterRoundTrip.AllWildcardIsNotPreserved | qid-directory/src/ldap_filter.rs:381-407 | for every attribute, an assertion of two stars is accepted and sanitized to the empty equality, a different filter |
| GroupExpansion.Expansion.ExpandGroup | qid-directory/src/lib.rs:502-530 | on any group graph the recursion ends, adds only groups reachable from the root and their users, and leaves every newly visited group fully recorded |
| GroupExpansion.ExpandNestedGroupMembers | qid-directory/src/lib.rs:37-68 | returns exactly the non-group values of all groups the root reaches in its realm and exactly the reached groups other than the root, cycles included; an unknown root is an error |
| GroupExpansion.ChildIdsIff | qid-directory/src/lib.rs:513-526 | a group's children are the first groups in the listing that its members denote, by id, or by display name for a member whose type is `group` in any ASCII case |
| GroupExpansion.UserValuesIff | qid-directory/src/lib.rs:513-529 | a group's users are the values that are no group's id, of members not marked as groups |
| GroupExpansion.ClosureIsExact | qid-directory/src/lib.rs:37-68 | sets closed under membership that hold only reachable things are exactly the reachable ones |
| ConfigIncludes.Loader.CollectConfigPaths | qid-core/src/config.rs:307-339 | the recursion ends; on success the path and everything it adds is visited in order, on failure the error names a real cause |
| ConfigIncludes.FromFiles | qid-core/src/config.rs:94-114 | succeeds if and only if paths were given, all reachable files are readable and no cycle is reachable; then the order has no duplicates, holds exactly the reachable files and puts every included file before its includer |
| ConfigIncludes.OrderedHasNoCycle | qid-core/src/config.rs:319-323 | no file in an order that puts includes first lies on a cycle |
| ConfigIncludes.FailureIsReal | qid-core/src/config.rs:307-339 | every reported error means an unreadable reachable file or a reachable cycle |
| Directory.ApplyLdapEntryProjects | qid-directory/src/lib.rs:657-735 | after an entry is applied each attribute is the projected one and all unrelated attributes are as before |
| Directory.ApplyLdapEntryIdempotent | qid-directory/src/lib.rs:657-735 | applying the same entry at the same time twice changes nothing more |
| Directory.EmploymentOfIff | qid-directory/src/lib.rs:609-619 | employment reads back exactly as it is written, for each of the three states |
| Directory.ProjectedReadsBack | qid-directory/src/lib.rs:571-619 | after an entry is applied its department, manager and employment read back as the entry has them |
| LdapSync.ValidateEntries | qid-directory/src/lib.rs:298-306 | passes exactly when every entry is valid and no two entries share a DN; an error names an entry that is blank or a DN listed twice |
| LdapSync.PreflightDirectoryOwnership | qid-directory/src/lib.rs:387-425 | passes exactly when every owned row has a non-blank provider and DN and no two rows share both; an error names a row or a pair of rows that is not so |
| LdapSync.CheckUnownedCollisions | qid-directory/src/lib.rs:313-327 | passes exactly when no unowned user already has the DN of an entry; an error names such a DN |
| LdapSync.ApplyEntries | qid-directory/src/lib.rs:344-364 | the loop over entries updates or creates exactly one user each and counts one write per reported change |
| LdapSync.DeactivateMissing | qid-directory/src/lib.rs:365-378 | the sweep deactivates exactly the unlisted owned users that are active and not break-glass, and reports each |
| LdapSync.SyncLdapEntries | qid-directory/src/lib.rs:286-380 | succeeds exactly when all checks pass; an error leaves the table and the write count unchanged and says something true of the snapshot or the table; success leaves the reconciled table and a report that matches it |
| SyncTheorems.SyncedUnique | qid-directory/src/lib.rs:328-380 | the outcome of a sync is determined by the table, the snapshot and the new ids |
| SyncTheorems.OneProjectedUserPerEntry | qid-directory/src/lib.rs:344-364 | after a sync exactly one user owns each snapshot DN, and it carries the projected attributes |
| SyncTheorems.OthersUntouched | qid-directory/src/lib.rs:328-378 | no user of another provider or realm and no unowned user changes |
| SyncTheorems.DeactivationIsJustified | qid-directory/src/lib.rs:365-378 | a sync deactivates only owned users that are disabled in their entry, or missing when asked for and not break-glass |
| SyncTheorems.MissingUserFate | qid-directory/src/lib.rs:365-378 | an owned user without an entry is left as it is exactly when missing users are kept, it is inactive or its `break_glass` attribute is true; otherwise it is inactive and stamped with the time of the sync, and no other attribute changes |
| SyncTheorems.OwnershipRestored | qid-directory/src/lib.rs:387-425 | after a sync the ownership preflight passes again |
| SyncTheorems.DistinctOwners | qid-directory/src/lib.rs:387-425 | after a sync no two users of the realm share provider and DN |
| SyncTheorems.AcceptedAgain | qid-directory/src/lib.rs:286-327 | an accepted snapshot is accepted again after its own sync |
| SyncTheorems.RepeatedSyncIsIdle | qid-directory/src/lib.rs:344-379 | repeating a sync with the same snapshot and time leaves the table as it is |
| SyncTheorems.RepeatedSyncReport | qid-directory/src/lib.rs:344-379 | the repeated sync writes nothing and reports every entry unchanged |
| SyncTheorems.OtherSyncKeepsAcceptance | qid-directory/src/lib.rs:286-327 | a sync of one provider does not make another provider's snapshot unacceptable |
| SyncTheorems.SyncsCommute | qid-directory/src/lib.rs:286-380 | syncs of two providers give the same table in either order |
| Lifecycle.CallMovesUser | qid-directory/src/lib.rs:678-686 | one call enables, disables or keeps an owned user and its timestamp as its entry, or the absence of one, says |
| Lifecycle.TimestampOverRun | qid-directory/src/lib.rs:856-912 | over every run the timestamp of a user created by sync is empty while active, and otherwise is the time of the first disabling or missing snapshot since the last enabling one |
| BreakGlassUsers.MarkedIsBreakGlass | qid-directory/src/lib.rs:914-933 | marking makes a user break-glass and changes only the mark and its source |
| BreakGlassUsers.BreakGlassSurvives | qid-directory/src/lib.rs:365-378 | a marked active user stays active and marked through every run of syncs that never lists it as disabled, however many leave it out |
| SlaAudit.AuditDeprovisionSla | qid-directory/src/lib.rs:227-273 | the loop returns the finding of each event in order, or the error of the first event that has one |
| SlaAudit.FoundIffRefersTo | qid-directory/src/lib.rs:150-191 | a single candidate is found exactly when one user of the realm matches the event |
| SlaAudit.FindingAboutUser | qid-directory/src/lib.rs:239-261 | about the one matching user the audit reports its id and timestamp and the saturated deadline; pending exactly when active in time, violated exactly when active past the deadline or inactive without a timestamp in time, met otherwise |
| SlaAudit.MissingIff | qid-directory/src/lib.rs:262-268 | the missing-user finding, with neither id nor timestamp, is returned exactly when no user of the realm matches |
| SlaAudit.AmbiguousIff | qid-directory/src/lib.rs:150-191 | an event is refused as ambiguous exactly when two users of the realm match |
| SlaAudit.BlankProviderIff | qid-directory/src/lib.rs:150-191 | an event is refused for its provider exactly when it names a blank one |
| SlaAudit.MetIff | qid-directory/src/lib.rs:240-253 | the audit answers Met exactly when the one matching user is inactive and was deprovisioned in time |
| SlaAudit.MetStaysMet | qid-directory/src/lib.rs:227-273 | Met for an event that names its provider stays Met through every run of syncs until a call re-enables the user |
| SlaAudit.LegacyMetStaysMetIff | qid-directory/src/lib.rs:150-191 | without a provider, Met stays Met over a run exactly when no accepted call of another provider in the realm lists the external id |
| SlaAudit.LegacyMetCanBeLost | qid-directory/src/lib.rs:150-191 | a concrete sync of another provider turns such a Met into an ambiguity |
| MixedRuns.LeaverInTimeIff | qid-directory/src/lib.rs:856-879 | a leaver record leaves a user in time exactly when it comes in time, whatever the stamp before |
| MixedRuns.ImportKeepsReference | qid-directory/src/types.rs:89-141 | no HR import adds a user an event could mean or takes the one it means |
| MixedRuns.MetOverMixedRunIff | qid-directory/src/lib.rs:227-380 | over every run of syncs and HR imports that does not reactivate the user, Met stays Met exactly when the last leaver record came in time and, without a provider, no other provider's sync brought the external id into the realm |
| MixedRuns.LateLeaverLosesMet | qid-directory/src/types.rs:121-131 | importing a leaver again after the deadline loses Met without reactivation |
| HrProjection.ApplyHrRecordProjects | qid-directory/src/lib.rs:770-839 | a joiner keeps attributes its record does not give, a mover clears them, and unrelated attributes stay |
| HrProjection.ApplyLeaverProjects | qid-directory/src/lib.rs:770-839 | a leaver is inactive with the deprovisioning time, and unrelated attributes stay |
| HrProjection.HrRecordReadsBack | qid-directory/src/lib.rs:571-619 | department and manager read back as the record has them, or as before when a record without one does not move the person, and employment as the event says |
| HrProjection.ApplyHrRecordIdempotent | qid-directory/src/lib.rs:770-839 | applying the same record twice is the same as once |
| HrImport.FindHrUser | qid-directory/src/lib.rs:200-215 | the scan fails exactly when two users of the realm share the external id, and otherwise finds the only one, if any |
| HrImport.PlanRecords | qid-directory/src/types.rs:89-99 | the preflight succeeds exactly when every record resolves, and pairs each record with its user; an error names a record that does not resolve and why |
| HrImport.PreflightBatch | qid-directory/src/types.rs:77-99 | the checks before any write pass exactly when the batch is admissible, and an error names a repeated record or one that does not resolve |
| HrImport.ImportHrRecords | qid-directory/src/types.rs:72-141 | succeeds exactly when the batch is admissible; an error writes nothing and names a repeated record or one that is ambiguous or without a user to leave; success writes each planned user once and reports it |
| HrImport.IndexByExternalId | qid-directory/src/webhook.rs:46-51 | the index holds for every external id exactly the users a scan would find |
| HrImport.PlanWebhook | qid-directory/src/webhook.rs:52-96 | plans changes exactly when the batch is admissible, one per record in order; the counters then are the numbers of leavers, of other records with a user and of records without one, and add up to the batch size |
| HrImport.BatchOkIffAdmits | qid-directory/src/types.rs:78-99 | what the preflight checks on the listed users is what the table says |
| HrImport.PlannersAgree | qid-directory/src/webhook.rs:52-96 | the users the webhook plans are exactly the users the importer stores, and no other user changes |
| HrImport.OrderDoesNotMatter | qid-directory/src/types.rs:100-141 | importing a reordered batch gives the same table |
| ManagerChain.BuildIndex | qid-directory/src/lib.rs:456-468 | the loop indexes the users of the scope by external id, the last one winning |
| ManagerChain.Walk | qid-directory/src/lib.rs:469-499 | the walk ends on every manager relation and describes the iterates of the manager function |
| ManagerChain.ResolveManagerChain | qid-directory/src/lib.rs:427-500 | managers are the duplicate-free iterates, never the start user; a cycle is flagged exactly when the walk never ends; every manager has the same realm and, for an owned user, the same provider; unknown users and blank owners are errors |
| ManagerChain.ManagerAfterSync | qid-directory/src/lib.rs:469-499 | after a sync an entry's user has the entry's manager DN as manager, and the walk goes from it to the user that owns that DN, or ends if none does |
| ManagerChain.CycleNeverEnds | qid-directory/src/lib.rs:489-496 | an iterate that comes back means there is always a next manager |
| CacheKeys.PrefixFree | qid-core/src/cache.rs:242-248 | no shared-cache namespace prefix is a prefix of another |
| CacheKeys.KeyTexts | qid-core/src/cache.rs:242-260 | each namespace writes its keys as its own text followed by the name |
| CacheKeys.KeyInjective | qid-core/src/state.rs:15-16 | cache keys are equal only for the same namespace and name |
| CacheKeys.AssertionKeyInjective | qid-core/src/cache.rs:218-228 | the length-prefixed assertion key determines protocol, client and token id |
| Caches.MemoryCache.SetIfAbsent | qid-core/src/cache.rs:86-104 | inserts exactly when no live entry is there |
| Caches.MemoryCache.Take | qid-core/src/cache.rs:111-120 | returns the live value and removes the entry |
| Caches.SessionCache.Put | qid-core/src/cache.rs:419-428 | stores the entry within the capacity, whatever else is evicted |
| Caches.Node.SessionCacheGet | qid-core/src/state.rs:225-234 | whatever the first level evicted, returns the last undeleted put while unexpired, and nothing else |
| Caches.Node.SessionCachePut | qid-core/src/state.rs:236-246 | keeps both levels in step with the log of puts and deletes |
| Caches.Node.SessionCacheDelete | qid-core/src/state.rs:248-254 | after it no get returns the session |
| Caches.Node.DecisionCacheGet | qid-core/src/state.rs:180-192 | returns the last unexpired put of the digest, and nothing else |
| Caches.Node.DecisionCachePut | qid-core/src/state.rs:194-223 | keeps both levels in step with the log and the local table within its bound |
| Caches.OtherNamespacesHarmless | qid-core/src/cache.rs:242-260 | traffic in other namespaces never disturbs a session or decision |
| Caches.SharedAfterEvent | qid-core/src/cache.rs:63-121 | the shared table holds the last put of every slot after any put or delete |
| SharedSessions.NextKeepsInv | qid-core/src/state.rs:225-254 | every sub-step on every instance keeps each local entry backed by that instance's latest local write |
| SharedSessions.StalenessIsBounded | qid-core/src/cache.rs:410-431 | in every interleaving a value that is not the live shared one is served only by the instance that wrote it locally, as its latest local change, and less than 30 seconds later |
| Replay.DpopState.RecordReplayKey | qid-core/src/cache.rs:305-324 | accepts exactly a key with no live record and then records it until its expiry, and at least to the end of the second |
| Replay.DpopState.RecordJti | qid-core/src/cache.rs:263-278 | records a token id until 60 seconds after the later of its issue time and now, or the last second |
| Replay.DpopState.RecordAssertionJti | qid-core/src/cache.rs:287-303 | records the assertion key of protocol, client and token id |
| Replay.DpopState.IssueNonce | qid-core/src/cache.rs:326-336 | stores the issue time under the nonce for 300 seconds |
| Replay.DpopState.ConsumeNonce | qid-core/src/cache.rs:338-357 | removes the nonce and accepts exactly a live one issued less than 300 seconds ago; an unknown, an unreadable and an expired nonce are each reported as such |
| Replay.ReplayIsRefused | qid-core/src/cache.rs:305-324 | in every run over a shared cache an accepted key is refused before its expiry and in the second of its acceptance |
| Replay.JtiIsRefused | qid-core/src/cache.rs:263-278 | in every run an accepted token id is refused for 60 seconds from the later of its issue time and its acceptance, up to the last second |
| Replay.RefusedOnlyIfReplayed | qid-core/src/cache.rs:305-324 | a key is refused only because of an earlier acceptance of it that has not expired or was in the same second |
| Replay.AssertionsDoNotCollide | qid-core/src/cache.rs:218-303 | a refused assertion was recorded for the same protocol, client and token id |
| Replay.NonceWasIssued | qid-core/src/cache.rs:326-357 | a consumed nonce was issued less than 300 seconds before and not consumed since |
| Replay.NonceIsSingleUse | qid-core/src/cache.rs:338-357 | of two consumptions of a nonce at most one succeeds |
| Replay.FirstUseSucceeds | qid-core/src/cache.rs:338-357 | the first consumption of an issued nonce succeeds exactly within 300 seconds |
| CsvRows.ScanPrinted | qid-directory/src/csv.rs:197-262 | scanning printed rows gives exactly those rows, whichever cells are quoted and whether lines end in CR LF, LF or CR, as long as no two breaks run together |
| CsvRows.PrintedComesBackIff | qid-directory/src/csv.rs:197-262 | printed rows come back exactly when every row has a cell and no line ended by CR is followed by a line that prints as LF alone |
| CsvRows.SplitInvertsPrinting | qid-directory/src/csv.rs:197-262 | splitting inverts all-quoted and minimally quoted printing of every list of non-empty rows over arbitrary characters |
| CsvRows.EmptyRowIsLost | qid-directory/src/csv.rs:233-240 | a row without cells comes back as one empty cell |
| CsvRows.MergedRowIsLost | qid-directory/src/csv.rs:233-240 | two rows of one empty cell, ended by CR and by LF, come back as one |
| CsvRows.RowsHaveCells | qid-directory/src/csv.rs:233-260 | the scanner never hands on a row without cells |
| CsvRows.RowsOfPrefix | qid-directory/src/csv.rs:213-251 | text after complete rows, ended by CR LF, LF or CR, changes nothing about them; a line feed right after a final CR belongs to that break |
| CsvRecords.HrColumns | qid-directory/src/csv.rs:118-146 | refuses a repeated name first, then the first required column that is missing, and otherwise returns the seven searches' results |
| CsvRecords.FindColumn | qid-directory/src/csv.rs:127-134 | the search returns the first column with the name, ignoring white space and ASCII case |
| CsvRecords.HasRepeatedName | qid-directory/src/csv.rs:119-126 | the loop over a set finds a repetition exactly when two header cells agree under the case mapping |
| CsvRecords.ColumnsOf | qid-directory/src/csv.rs:127-145 | every column found lies within the header |
| CsvRecords.Consumer.Consume | qid-directory/src/csv.rs:72-97 | takes the header first, skips blank rows, and refuses a wrong width, a bad record or one record too many |
| CsvRecords.SplitCsvRows | qid-directory/src/csv.rs:197-262 | the state machine hands on exactly the scanned rows in order, stops at the first refused one, and reports bad quoting |
| CsvRecords.ParseCsvHrRecords | qid-directory/src/csv.rs:62-104 | size and NUL are refused first, then rows are consumed, then an empty file is refused |
| CsvRecords.OneRecordPerDataRow | qid-directory/src/csv.rs:62-104 | an accepted file gives one record per non-blank data row, in order and read by the header, and at most the ceiling |
| CsvRecords.RefusedRowsRefuseFile | qid-directory/src/csv.rs:72-97 | a refused complete row, however it ends, refuses the file whatever follows it, with the same error unless the file is too large or holds a NUL |
| CsvRecords.TooManyRecordsRefuseFile | qid-directory/src/csv.rs:89-96 | a prefix with more complete records than the ceiling refuses the file whatever follows |
| CsvRoundTrip.ColumnsAreDistinct | qid-directory/src/csv.rs:118-146 | no cell of an accepted header serves two columns |
| CsvRoundTrip.RecordRoundTrip | qid-directory/src/csv.rs:148-192 | a record written into the header's columns is read back as that record |
| CsvRoundTrip.ImportInvertsExport | qid-directory/src/csv.rs:62-262 | importing an export gives back exactly the exported records, under every header that names the columns |
| CsvRoundTrip.StandardColumns | qid-directory/src/csv.rs:118-146 | the documented header of seven names, spelled out, names its columns in order |
| CsvTolerance.WhitespaceDoesNotMatter | qid-directory/src/csv.rs:118-192 | two files whose cells, in the header or in data rows, differ only in the white space around them give the same records or the same error |
| CsvTolerance.SkippedIff | qid-directory/src/csv.rs:78-80 | a data row is skipped exactly when its cells hold nothing but white space |
| CsvTolerance.EventOfIff | qid-directory/src/csv.rs:148-192 | an event cell is read as an event exactly when, without white space around it, it is the event's name in any ASCII case |
| CsvTolerance.RecordErrorIff | qid-directory/src/csv.rs:148-166 | a data row is refused for its external id exactly when that cell is blank, for its event exactly when it is not and the event cell is no event, and for nothing else |
| CsvTolerance.ByteOrderMarkIsIgnored | qid-directory/src/csv.rs:62-71 | a byte order mark in front of a file changes nothing |
| CsvTolerance.TooLargeIff | qid-directory/src/csv.rs:62-71 | a file is refused for its size exactly when it has more than 8388608 octets |
| Keyring.Keyring.InsertKey | qid-crypto/src/keyring.rs:142-155 | a parsed key sets creation time and signer and appends its JWK; an unparsed one changes nothing |
| Keyring.Keyring.LoadActive | qid-crypto/src/keyring.rs:127-132 | inserts the key and makes it active |
| Keyring.Keyring.LoadNext | qid-crypto/src/keyring.rs:135-140 | inserts the key and makes it the successor |
| Keyring.Keyring.SetNextKid | qid-crypto/src/keyring.rs:248-250 | names any kid as the successor and changes nothing else |
| Keyring.Keyring.DoRotate | qid-crypto/src/keyring.rs:256-264 | the active key becomes the newest previous one, the successor becomes active, and the ring is pruned |
| Keyring.Keyring.DoPrune | qid-crypto/src/keyring.rs:269-283 | previous keys past the maximum age go, and with them everything stored for kids no longer referred to |
| Keyring.Keyring.PublishedJwks | qid-crypto/src/keyring.rs:195-210 | the two loops return the first stored JWK of each referenced kid in insertion order |
| Keyring.Keyring.FindDecodingSigner | qid-crypto/src/keyring.rs:234-245 | answers exactly for stored kids that are active, next or previous |
| Keyring.PublishedIffDecodable | qid-crypto/src/keyring.rs:195-245 | published kids have no duplicates and are exactly the kids that decode |
| Keyring.ReachableAligned | qid-crypto/src/keyring.rs:76-283 | in every state of every run signers, creation times and JWKs cover the same kids |
| KeyRotation.OnceActiveStaysDecodable | qid-crypto/src/keyring.rs:256-283 | over runs that load fresh kids, a key once active under a non-empty kid stays decodable, with its own JWK published, until it reaches the maximum age; a key created at second 0 counts as too old from the start |
| KeyRotation.YoungIff | qid-crypto/src/keyring.rs:270-272 | a key passes the cutoff exactly when it was created after second 0 and less than the maximum age ago |
| KeyRotation.OldKeyIsDropped | qid-crypto/src/keyring.rs:269-283 | pruning drops a key past the maximum age that is neither active nor next |
| KeyRotation.RotateKeepsActiveIff | qid-crypto/src/keyring.rs:256-264 | rotation keeps a young active key unless its kid is empty and another key replaces it |
| KeyRotation.RotationDropsEmptyKid | qid-crypto/src/keyring.rs:256-264 | a run from a new ring in which rotation drops a young active key with an empty kid |
| KeyRotation.StepKeepsKeyIff | qid-crypto/src/keyring.rs:76-283 | for every ring and each of the five steps, when a decodable key is still decodable under its kid afterwards |
| KeyRotation.DecodesThroughIff | qid-crypto/src/keyring.rs:76-283 | over every run, whatever is loaded, a key decodes throughout exactly when every step keeps it |
| KeyRotation.LoadActiveKeepsOldIff | qid-crypto/src/keyring.rs:127-132 | loading an active key keeps the old one exactly when it is the same key under the same kid, or another kid is loaded and the old one is also previous or next |
| KeyRotation.SecondActiveDropsFirst | qid-crypto/src/keyring.rs:127-132 | a run from a new ring in which a second active load drops the first key |
| KeyRotation.ReloadReplacesActive | qid-crypto/src/keyring.rs:127-155 | a run from a new ring in which another key under the active kid replaces the old one although that kid is also previous |
| KeyRotation.LoadPublishesIff | qid-crypto/src/keyring.rs:127-210 | for every ring and both kinds of load, the loaded key is the one its kid decodes with, and its JWK is published exactly when the first JWK stored for the kid, if any, has the same public half |
| KeyRotation.ReloadHidesNewKey | qid-crypto/src/keyring.rs:142-210 | a run from a new ring in which a kid loaded again, even twice, signs with the new key and publishes the old one |
| Throttle.EvictOldest | qid-core/src/throttle.rs:79-92 | removes exactly the excess over 1024 entries, and nothing removed is newer than anything kept |
| Throttle.FailureBudget.Exhausted | qid-core/src/throttle.rs:39-51 | true exactly when the key's window is open and its count has reached the limit |
| Throttle.FailureBudget.RecordFailure | qid-core/src/throttle.rs:56-74 | counts the failure in the open window or a new one, keeps the map within 1024 entries, and says whether the limit is reached |
| FailureLog.ExhaustedIsOfLog | qid-core/src/throttle.rs:39-74 | with at most 1024 keys the answer is a function of the key's failure times: the window opened by the last opening failure is open and full |
| FailureLog.RunIsBounded | qid-core/src/throttle.rs:79-92 | in every run the map holds at most 1024 entries |
| ForgottenKeys.KeptOrForgotten | qid-core/src/throttle.rs:39-92 | another key's failure leaves a key's answer as it was, or evicts the key and it is no longer exhausted |
| ForgottenKeys.CanForgetIff | qid-core/src/throttle.rs:79-92 | some outcome of another key's failure evicts a key exactly when the map is full, the other key is new and nothing in the map is older |
| ForgottenKeys.MustForgetIff | qid-core/src/throttle.rs:79-92 | every outcome does exactly when everything else in the map is newer |
| ForgottenKeys.SpentKeyIsForgotten | qid-core/src/throttle.rs:39-92 | for every limit and window of at least two seconds, a run in which a spent key is not exhausted inside its window after 1024 other keys failed |
| ForgottenKeys.RememberedUnlessCrowded | qid-core/src/throttle.rs:56-92 | over every run a key without new failures keeps its entry unless 1024 other keys have failed since its window opened |
| FailureLog.ClientIsThrottled | qid-core/src/throttle.rs:39-74 | with at most 1024 keys and no failure at the last second, a sequential client that checks before each attempt records at most twice the limit less one failures of a key in any window's length |
| FailureLog.ThrottledIff | qid-core/src/throttle.rs:39-74 | all checking clients of runs up to a time stay within the bound exactly when that time is before the last second |
| ForgottenKeys.ClientIsThrottledAmongMany | qid-core/src/throttle.rs:39-92 | with any number of keys, whatever the others do, the bound holds for a client that always checks while fewer than 1024 other keys fail in each of its windows |
| ForgottenKeys.FewKeysNeverCrowd | qid-core/src/throttle.rs:79-92 | at most 1024 keys never crowd one out |
| FailureLog.BoundIsReached | qid-core/src/throttle.rs:39-74 | for every limit and window of at least two seconds some checking client reaches that bound |
| FailureLog.UnboundedAtTheEnd | qid-core/src/throttle.rs:45-49 | at the last representable second a checking client records any number of failures |
| FailureLog.SpentMeansExhausted | qid-core/src/throttle.rs:39-74 | a check at the same second answers true exactly when recording the failure did, the key's entry was not evicted by that call, the window is not empty and it is not the last second, given that the clock has not gone back |
| PagedSearch.Progress.RecordPage | qid-directory/src/connector.rs:605-622 | counts the page first and then its entries, and reports the bound that is passed |
| PagedSearch.FetchSearchEntries | qid-directory/src/connector.rs:514-558 | against any server it stops after at most one request more than the page bound, and succeeds exactly when the server's result is within both bounds and maps, with all entries in order; an error says something true of the replies |
| PagedSearch.ReadableIff | qid-directory/src/connector.rs:584-622 | the ceiling in force is the configured one up to 10000000, and 1000000 without one; a result is within the bounds exactly when it has no more entries and, if paged, full pages before its last would stay below the ceiling |
| PagedSearch.FilledIsReadIff | qid-directory/src/connector.rs:584-602 | a server that fills every page but the last and holds at most the ceiling is read completely unless its last page is empty and it holds exactly the ceiling |
| PagedSearch.SomeFilledIsRefusedIff | qid-directory/src/connector.rs:584-622 | for every page size and configured ceiling, some server that fills its pages within the ceiling is refused exactly when the page size divides the ceiling |
| AdminAuthz.BreakGlassNeedsItsRole | qid-admin/src/authz.rs:285-314 | the break-glass permission is held by the break-glass role alone, and only while enabled |
| AdminAuthz.RoleAllowsIff | qid-admin/src/authz.rs:285-314 | a role allows exactly the permissions listed for it, role by role, and the break-glass role all of them while enabled |
| AdminAuthz.HasRoleIff | qid-admin/src/authz.rs:285-314 | an administrator has a permission exactly when one of the roles held carries it |
| AdminAuthz.ApprovalStore.ConsumeIfUnconsumed | qid-storage/src/file/admin.rs:66-75 | answers true only for an approval it found unconsumed and marks it consumed |
| AdminAuthz.ApprovalStore.StoreApproval | qid-storage/src/file/admin.rs:54-64 | refuses an id that exists and otherwise adds the approval, also when writing the store out then fails |
| AdminAuthz.ApprovalStore.AuthorizeMutation | qid-admin/src/authz.rs:521-649 | runs the checks in the source's order and consumes the approval exactly when all checks before the path check pass; `AllowedIff` and `RefusedForItsReason` say when it allows and what a refusal means |
| AdminAuthz.UsedUpButRefusedIff | qid-admin/src/authz.rs:563-587 | a request that reaches its approval is refused, with the approval used up, exactly when the store could not be saved or the path names another tenant |
| AdminAuthz.AllowedIff | qid-admin/src/authz.rs:459-574 | a request is allowed exactly when reason, role, step-up, elevation, tenant, realm, path and approval conditions all hold |
| AdminAuthz.RefusedForItsReason | qid-admin/src/authz.rs:459-587 | whatever a refusal says of the request is true of it, for each of the fourteen refusals |
| ApprovalRuns.StepKeepsInv | qid-admin/src/authz.rs:521-686 | every atomic step of every request keeps claimed approvals consumed, distinct, and right for their administrator |
| ApprovalRuns.OneMutationPerApproval | qid-admin/src/authz.rs:556-572 | in every interleaving of ordinary and break-glass requests each approval backs at most one accepted mutation |
| ApprovalRuns.AcceptedIsApproved | qid-admin/src/authz.rs:531-572 | when approval is required an accepted mutation is backed by an approval for that administrator and tenant that was unconsumed and unexpired when checked |
| ApprovalRuns.AcceptedAtMostConsumed | qid-admin/src/authz.rs:556-572 | when approval is required there are never more accepted mutations than consumed approvals |
| ApprovalRuns.AcceptedWasAuthorized | qid-admin/src/authz.rs:459-506 | every accepted mutation was authorized on the way with a role that allows it |
| ApprovalRuns.AcceptedHoldsAGrant | qid-admin/src/authz.rs:285-506 | in every run the administrator of an accepted mutation holds a role that carries what the mutation needs, or the enabled break-glass role |
| ApprovalRuns.AloneMatchesVerdict | qid-admin/src/authz.rs:521-587 | a request whose steps run without interruption is decided as the whole request is |

## Left out

- HTTP handlers, routing, the admin pages, audit records, and the live LDAP session: wiring around the modelled code.
- Cryptography, PEM and JWT handling: keys are opaque pairs, and a PEM text is whatever pair it parses to.
- Error messages and line numbers: errors are cases of a datatype.
- The order of report lists that follow a map's iteration order, and the order in which a realm's users are listed, beyond what the results need.
- JSON beyond the attributes that sync and import touch: values are a small datatype with objects and strings.
- Reading configuration files and merging them: the model has the include graph and the canonical paths only.
- Dynamic group conditions, SCIM routes and the HR batch application of the storage layer.
- The Redis backend and the recency order of the session cache: the shared cache is the in-memory one, and the session cache may evict any entry.
- Poisoned locks, which the failure budget treats as spent.
- How an administrator is resolved from a session: a request sees some administrator and elevation, or none.
- Overflow of the maximum key age in seconds: ages are unbounded numbers.
- Entropy of nonces and ids: single use assumes that issued nonces differ, and stored rows that new ids differ.
- HrColumns: the Unicode lower-casing that tells header names apart is a parameter, because only its equality test matters.
- EvictOldest: entries of the same age are dropped in any order, because the source's order for them follows a hash map.
