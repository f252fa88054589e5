# Kantrip, verified

Kantrip keeps connection profiles for Kafka and schema registries in a SQLite database and the secrets
that they refer to in a separate operating-system vault. The two stores cannot be switched in one
transaction, a process can die between any two durable steps, and the acknowledgement of a commit can be
lost. This project models the parts of Kantrip where that, or a comparable protocol or grammar, makes the
code hard, and proves what those parts promise. Check it with `dafny verify dfyconfig.toml`.

## The cores

**Two stores that stay consistent.** `TwoStores` is the transition system: profile rows and a cleanup
journal on one side, vault entries on the other, and a history that records what was supplied for each
generation. Its invariant, `Consistent`, says that every live reference has its secret, that every stored
secret is live or journaled, and that no journaled reference is live; every action keeps it.
`Stores.Connection` is the imperative side, with `BEGIN`, `COMMIT`, vault calls and inspections that can
each fail (and a `COMMIT` or a vault call that can also fail after taking effect). `CredentialMutations`,
`ProfileSwitches`, `CredentialCommits`, `Reconciliation`, `Profiles`, `ProfileChanges`, `ProfileCreation`
and `Snapshots` are the methods of the source on that connection. A connection keeps a ghost trace, which
its `Valid` ties to the transition system: each method's effect is a run of actions, so stopping a method
anywhere leaves a state of such a run. `Locking` adds any number of processes, their lock and their
deaths. `ProfileAuth`, `RegistryAuthPlans`, `ProfileEdits`, `NewProfiles` and `EditedCredentials` prove
that the plans feeding these methods neither lose nor invent a reference. `EditMeaning` tells what a request
asks for, field by field, and when it is accepted, without the plans, and shows that accepted requests are
carried out to the letter; `ReferenceMeaning` does the same for references and where documents hold them.

**Configuration text that reads back.** `PropertiesSyntax`, `Librdkafka` and `Jaas` are the three readers
(loops over an index, each proved equal to a recursive specification); `JavaRendering`, `JaasRendering`
and `Librdkafka` are the printers; `KafkaProperties` exports a connection and `ClientProperties`,
`ClientImport`, `PropertyMapping` and `RegistryProperties` import one. `ExportImport` and
`DialectReading` show that importing what was exported is the identity, including the inference of the
dialect from a text that several readers accept. `Placeholders` tells from a connection's fields when its
export looks like an unfilled template.

Beside each reader stands a grammar that no reader uses, told from what is written: `JavaGrammar` and
`JavaDocuments`, `LibrdkafkaDocuments`, `JaasGrammar` and `JaasDocuments`. A text is read as something exactly
when the grammar writes it that way. `ImportMeaning`, `RegistryMeaning` and `ImportedFiles` say in literal keys
and values which connection a file describes, and that exactly that one is imported; `ExportMeaning` shows that
exported properties, with every kind of authentication and certificate, describe the connection they were
exported from.

**Session directories.** `SessionRuntime` is a transition system of creators, supervisors and scanners
around a lock file and a marker; `SessionScans` holds the methods of the source on it, with any number of
steps of other processes between two of their own.

**Chunked vault storage.** `KeychainLines` covers the generated command lines and their length,
`MacOSVault` what a batch that stops anywhere leaves for a reader and for a later delete, and
`KeychainVault` the methods that read, write and delete. `VaultRefinement` derives from them what the
two-store core assumes of a vault.

**Session files and kcat options.** `SessionFiles` writes planned files with everything they require;
`Kcat` relates the option scan to a grammar of command lines.

## Where the code does less than one may expect

- Scanning stored documents for references treats every name that ends in `Ref` as one, and label names
  are part of a document. A label such as `ownerRef=team-a`, which the label rules allow, stops every
  reconciliation of a non-empty journal (`kantrip/reconciliation.py:161-176`). `ReachedBlocks` and
  `ReconcilePendingSecrets` give the exact condition, `LabelCanBlock` a concrete profile.
- An edit that sets up Registry credentials for a profile without a Registry, and gives no Registry URL, skips
  the plan (`kantrip/profile_auth.py:97`), so the staged secrets are referred to by nobody.
  `EditConservesExactly` says that this is the only case, `PasswordWithoutRegistry` gives the input. The
  command line rules it out (`kantrip/cli_inputs.py:605`), and `EditProfile` asks for the same guarantee.
- A secret that contains `{{…}}` can be exported but is refused as an unfilled placeholder on import.
  `JavaImportsByFields` and `LibrdkafkaImportsByFields` say exactly for which fields this happens;
  `BracedPasswordIsRefused` gives a password, and `BracesMeetInJavaOnly` a username and a password that fail
  together where they are printed in one value.
- An added profile without secrets that was removed again reads as "not committed" (`SecretlessAddCanMislead`).
  With a staged secret, "not committed" is right at any later time (`AddVerdictHoldsLater`). Kantrip reads the
  database back under its lock, where `LostAcknowledgement` applies. In the same way a removal that retires no
  secret reads as made whoever removed the row (`SecretlessRemovalReadsAny`, `RemovalVerdictHoldsLater`).
- A deletion of a session directory that is interrupted after the lock file was deleted, by the death of a closing
  owner or of a scanner, leaves a directory that no scan ever removes (`LeftoverStays`, `ClosingCanLeaveIt`,
  `ScanCanLeaveIt`), with whatever else is still in it: entries are deleted in the order the directory lists
  them.
- An overwrite of a vault entry that stops half-way can read as a mixture of the old and the new value,
  unless one of them has a single piece (`OverwriteIsSafeWhen`, `InterruptedOverwriteCanMix`). Kantrip writes
  each reference once.
- An interrupted delete of an entry without its head cannot be finished later, unless it was stopped before
  its first or after its last step (`InterruptedHeadlessDelete`, `HeadlessDeleteIsNotRestartable`); so it is
  safe for an entry that has its head, or at most one other piece.

## Assumptions

- A database transaction happens entirely or not at all; the lock is exclusive and the death of its
  holder releases it. The vault loses nothing by itself.
- Fresh UUIDs come from a finite supply of canonical identities that nothing uses yet; methods require
  that enough of it is left, and the verdicts about later times that identities of cleanup records are not used twice.
- References of a stored document belong to its authentication type: the datatypes of `Documents` have no
  room for others. An empty TLS section is the same as none, and so is a Registry without authentication.
- Certificates, keys, URLs, letter case and stored-schema rules are uninterpreted functions (`Checks`,
  `ImportChecks`); where a theorem needs more of them, it says so (`KeepsCase`: lower and upper case keep
  the few constants that the exports use).
- The order in which properties are printed is a parameter; the round trips hold for every order.
- Texts of keychain commands are sequences of bytes.

## Model

| member | source | states |
|---|---|---|
| References.ParseRender | kantrip/secret_store.py:162-176 | A reference built for an owner, credential and field parses back to exactly these. |
| References.RenderParse | kantrip/secret_store.py:184-198 | Every accepted text is the rendering of what it parses to: no two texts denote one reference. |
| ReferenceMeaning.ReferenceTexts | kantrip/secret_store.py:162-198 | A text denotes a reference exactly when it is the owner's and the credential's canonical UUID and the field, in this form. |
| TwoStores.StepKeepsConsistent | kantrip/credential_mutations.py:94-270 | Each durable action (journal, store, create, update, remove, erase, forget) keeps every live reference stored, every stored secret live or journaled, and no journaled reference live. |
| TwoStores.RunKeepsConsistent | kantrip/credential_mutations.py:94-270 | The stores are consistent at every point of any run of adds, edits, removals and repairs, and history is never rewritten. |
| TwoStores.ConsistentFromThere | kantrip/profile_storage.py:272-317 | A crash after any durable action leaves consistent stores, from any consistent start. |
| TwoStores.OneDocumentPerRevision | kantrip/credential_mutations.py:60-91 | Over a whole run, an identity and a revision name at most one row and document, under whatever profile name. |
| TwoStores.UpdateKeeps | kantrip/credential_mutations.py:179-207 | Switching a row, dropping the staged journal rows and queueing the retired ones in one transaction keeps the stores consistent. |
| TwoStores.RemoveKeeps | kantrip/credential_mutations.py:230-262 | Removing a row and queueing all its references keeps the stores consistent. |
| StoredReferences.CollectSecretReferences | kantrip/reconciliation.py:161-176 | Reading nested stored data finds exactly the references it holds, and fails exactly when an entry named like one is unreadable. |
| StoredReferences.EncodedReferences | kantrip/reconciliation.py:143-176 | For an encoded profile these are its authentication's references plus whatever labels named like references say. |
| ReferenceMeaning.HoldsUnder | kantrip/reconciliation.py:161-176 | A value holds a reference exactly when its text stands, at the end of some path, under a key that ends in `Ref` and below none. |
| ReferenceMeaning.ReadableUnder | kantrip/reconciliation.py:161-176 | A value is readable exactly when everything at the end of such a path is the text of a reference. |
| Stores.Connection.Commit | kantrip/profile_storage.py:285-317 | A commit switches the database in one action or not at all, and its failure does not tell which. |
| Stores.Connection.SetSecret | kantrip/credential_mutations.py:128-139 | A vault write stores exactly the given value or leaves the vault alone, and keeps the stores consistent. |
| Reconciliation.QueueSecretCleanup | kantrip/reconciliation.py:42-63 | Adds exactly one new journal row for the reference to the open transaction, or changes nothing. |
| Reconciliation.PendingSecretCleanup | kantrip/reconciliation.py:66-92 | Returns each journal row once, and fails when a row is invalid. |
| Reconciliation.LiveSecretReferences | kantrip/reconciliation.py:143-158 | Returns exactly the references that stored profiles report, or fails when one is unreadable. |
| Reconciliation.ReconcileSecretCleanup | kantrip/reconciliation.py:95-140 | From an arbitrary journal: never deletes a secret that a stored profile refers to, changes no row, removes only journal rows, and without failures leaves neither the chosen rows nor their secrets; when nothing fails, it is refused exactly if blocked. |
| Reconciliation.DeleteSelected | kantrip/reconciliation.py:113-140 | Wherever it stops, only chosen secrets and rows are gone, and no journal row went before its secret. |
| Reconciliation.ReconcilePendingSecrets | kantrip/profile_storage.py:240-269 | A full pass without failures ends with an empty journal and exactly the live secrets stored; it is refused exactly when a label blocks it. |
| Reconciliation.ReachedBlocks | kantrip/reconciliation.py:95-176 | In a state the protocol reached, nothing but a label can block reconciliation. |
| Reconciliation.LabelCanBlock | kantrip/reconciliation.py:161-176 | Such a state exists after adding one profile with an allowed label. |
| Reconciliation.EmptyJournalBalances | kantrip/reconciliation.py:95-140 | With an empty journal the vault holds exactly the live references. |
| MutationOutcomes.CleanupRecordsMatch | kantrip/mutation_outcomes.py:171-191 | Matches exactly when all present records are journaled as given and the identity of no absent record is. |
| MutationOutcomes.InspectMutationOutcome | kantrip/mutation_outcomes.py:137-168 | Reports committed or not committed only on matching evidence, and unknown otherwise or when nothing could be read. |
| MutationOutcomes.LostAcknowledgement | kantrip/mutation_outcomes.py:137-191 | For every add, edit and removal, inspection says "not committed" of the state before and "committed" of the state after. |
| MutationOutcomes.EditVerdictHoldsLater | kantrip/mutation_outcomes.py:137-191 | For an edit, read at any later point of any run, "committed" means that this very generation was recorded since and "not committed" that it never was. |
| MutationOutcomes.AddVerdictHoldsLater | kantrip/mutation_outcomes.py:137-191 | For an addition, "committed" means that the document was stored, and "not committed" that it never was, if a secret was staged for it. |
| MutationOutcomes.SecretlessAddCanMislead | kantrip/mutation_outcomes.py:137-191 | Every addition without secrets that is removed again reads as "not committed". |
| MutationOutcomes.RemovalVerdictHoldsLater | kantrip/mutation_outcomes.py:137-191 | For a removal, "committed" means that the row is gone and, if it retires a secret, that this very removal was made; "not committed" means that the row was stored all the time since. |
| MutationOutcomes.SecretlessRemovalReadsAny | kantrip/mutation_outcomes.py:137-191 | A removal that retires no secret reads as "committed" exactly when the row is gone, whoever removed it. |
| ProfileAuth.RetiredOnce | kantrip/profile_auth.py:378-393 | No reference is retired twice. |
| ProfileAuth.KafkaPlanConserves | kantrip/profile_auth.py:101-425 | For all Kafka type changes, the current references split disjointly into retained, superseded and retired, and the new document's references are exactly the retained and staged ones. |
| RegistryAuthPlans.RegistryPlanConserves | kantrip/profile_auth.py:428-683 | The same for all Registry type changes. |
| ProfileEdits.EditConserves | kantrip/profile_documents.py:24-247 | A whole edit, with both plans and every change of sections, conserves references. |
| ProfileEdits.OffersRegistryExactly | kantrip/profile_documents.py:196-247 | A Registry plan that replaces secrets finds its section exactly when the request sets up credentials only where a Registry is stored or its URL is given. |
| ProfileEdits.EditConservesExactly | kantrip/profile_auth.py:89-98 | An accepted edit conserves references if and only if its request does that. |
| ProfileEdits.PasswordWithoutRegistry | kantrip/profile_auth.py:89-98 | A Registry password for a profile without a Registry is the failing input. |
| ProfileEdits.EditOwns | kantrip/profile_documents.py:128-247 | An edited document keeps its identity and owns every reference it holds. |
| NewProfiles.NewConserves | kantrip/profile_documents.py:250-301 | A new document holds exactly the references staged for it and its plan gives up none. |
| EditedCredentials.EditGivesUp | kantrip/profiles.py:531-627 | The references that an edit supersedes are the current ones of their fields, and those it retires are other current ones, each once. |
| EditedCredentials.EditSwitches | kantrip/profiles.py:531-627 | An accepted edit with its staged secrets is a switch that conserves references, and its generation resolves to the supplied and the kept values. |
| EditMeaning.EditCarriedOut | kantrip/profile_documents.py:128-247 | An accepted edit stores, field by field, what was requested where it was and the former value elsewhere: description, labels, servers, transport, trust, authentication and Registry. |
| EditMeaning.NewCarriedOut | kantrip/profile_documents.py:250-301 | A new profile's document holds exactly the requested values. |
| EditMeaning.SecretsCarriedOut | kantrip/profiles.py:531-627 | The secrets of the new generation are the supplied ones, and for all other fields the former ones. |
| EditMeaning.EditAllowedExactly | kantrip/profile_documents.py:75-247 | An edit is accepted exactly when the request is coherent and fits the stored transport, trust, authentication and Registry; otherwise the input is blamed. |
| EditMeaning.NewAllowedExactly | kantrip/profile_documents.py:250-301 | The same for a new profile. |
| EditMeaning.KafkaAllowedExactly | kantrip/profile_auth.py:101-345 | A Kafka authentication is accepted exactly when all its values belong to its type and are given or already stored. |
| EditMeaning.RegistryAllowedExactly | kantrip/profile_auth.py:428-683 | The same for a Registry authentication. |
| CredentialMutations.ValidateReplacements | kantrip/credential_mutations.py:273-291 | Accepts exactly replacements of distinct known fields with usable values and owned previous references. |
| CredentialMutations.QueueStaged | kantrip/credential_mutations.py:94-127 | Journals every new reference in one transaction before any secret is stored. |
| CredentialMutations.StoreStaged | kantrip/credential_mutations.py:128-139 | Stores and verifies each staged secret under its journaled reference. |
| CredentialMutations.StageSecretReplacements | kantrip/credential_mutations.py:94-139 | Success means every replacement has its own new, journaled, stored and verified reference; however it ends, no profile changed and every leftover is journaled. |
| ProfileSwitches.ValidateRetired | kantrip/credential_mutations.py:308-323 | Accepts exactly distinct canonical references owned by the profile. |
| ProfileSwitches.VerifyStagedRecords | kantrip/credential_mutations.py:326-336 | Succeeds exactly when every staged record is still journaled as it was. |
| ProfileSwitches.PerformSwitch | kantrip/credential_mutations.py:60-75 | Updates exactly the row of the expected identity and revision, or inserts a new one, and fails otherwise. |
| ProfileSwitches.QueueRetired | kantrip/credential_mutations.py:193-199 | Queues each retired reference under its own new journal row. |
| CredentialCommits.CommitOrInspect | kantrip/credential_mutations.py:200-214 | After a failed commit the reported outcome is the true one, or nobody could look. |
| CredentialCommits.CommitSecretReplacements | kantrip/credential_mutations.py:142-214 | Success and "committed" mean that the row was switched, "not committed" and other failures that it was not; a clean success leaves no retired secret. |
| CredentialCommits.CommitProfileRemoval | kantrip/credential_mutations.py:217-270 | The same for a removal with all its secrets. |
| Profiles.CommitWithEvidence | kantrip/mutation_outcomes.py:65-83 | The tracker's outcome agrees with what the database holds after a failed commit of a plain change. |
| Profiles.HandledTruthfully | kantrip/mutation_outcomes.py:51-62 | The error handlers turn every such outcome into a status that says what happened to the row. |
| Profiles.SecretReferencesExact | kantrip/profile_auth.py:748-760 | A profile's listed references are exactly those its sections hold. |
| Profiles.NameRefusedExactly | kantrip/profile_storage.py:439-444 | A name is refused exactly for its length, for a character that is no ASCII letter, digit, dot, underscore or hyphen, and for beginning with one of these three. |
| Profiles.RemoveProfile | kantrip/profiles.py:237-365 | Status 0 and 3 mean that the row is gone, had the expected identity and revision, and was named by an allowed name; 1 and 2 that no row changed, 4 only when an inspection failed; 0 leaves none of its secrets. Without failures the status is exactly 2 for a refused name, 1 for a missing row or another generation than expected, and else 0. |
| ProfileChanges.EditProfile | kantrip/profiles.py:368-627 | Status 0 and 3 mean that the row had the expected identity and revision and is now its next revision: every requested value is stored, every other one and every other row is as it was, and each secret is the supplied or the former one. 0 leaves no secret that the new document lost. Without failures the status is given exactly, from the request and the stored document. |
| ProfileChanges.EditedIsCarriedOut | kantrip/profiles.py:368-627 | An edit that switched the row as planned left what the request asked for, and gave up every reference that the new document lost. |
| ProfileCreation.AddProfile | kantrip/profiles.py:128-234 | Status 0 and 3 mean that a row under a new identity stores exactly the requested values, with exactly the supplied secrets; the rest as for an edit. |
| ProfileCreation.AddedIsStored | kantrip/profiles.py:128-234 | An addition as planned stored what the request asked for. |
| Snapshots.ResolveProfileSnapshot | kantrip/profiles.py:81-125 | A returned snapshot holds exactly the values supplied for the one revision it read; without failures it exists exactly for stored profiles. |
| Locking.LockExcludes | kantrip/profile_storage.py:272-317 | At most one process is between acquiring and releasing the lock. |
| Locking.SnapshotIsOneGeneration | kantrip/profiles.py:81-125 | Whatever other processes did and wherever they died, a snapshot never mixes generations or lacks a credential. |
| Locking.FetchNeverMisses | kantrip/profiles.py:81-125 | Between reading a row and fetching its secrets, none of them can disappear. |
| Locking.CrashAnywhere | kantrip/profile_storage.py:272-317 | Any prefix of a mutation's durable actions followed by the death of its process is a behaviour the theorems cover, and it ends with the lock free. |
| PropertiesSyntax.JavaLogicalLines | kantrip/properties_syntax.py:58-81 | The line loop yields the specified logical lines, with comments, blank lines and continuations. |
| PropertiesSyntax.SplitJavaLine | kantrip/properties_syntax.py:84-100 | The scan cuts at the first unescaped separator and skips exactly what separates. |
| PropertiesSyntax.JavaUnescape | kantrip/properties_syntax.py:103-134 | The escape loop computes the specified text, which `WritesExactly` determines. |
| PropertiesSyntax.ParseJavaProperties | kantrip/properties_syntax.py:38-55 | The parser computes the specified map or refuses, as `JavaSaysExactly` determines. |
| JavaGrammar.WritesExactly | kantrip/properties_syntax.py:103-134 | Unescaping inverts writing: a text is read from exactly the characters, letter escapes and four-digit UTF-16 escapes (in either case, two for a character beyond the basic plane) that write it. |
| JavaGrammar.LoneSurrogateIsRefused | kantrip/properties_syntax.py:125-134 | An escape for half of a surrogate pair without the other half beside it is refused. |
| JavaGrammar.LineExactly | kantrip/properties_syntax.py:84-100 | A line is read as an entry exactly when it is the written key, a gap of blanks with at most one `=` or `:`, and the written value, all in ASCII. |
| JavaDocuments.LogicalExactly | kantrip/properties_syntax.py:58-81 | The logical lines are exactly the runs of natural lines that ask for continuation, without their backslashes and leading blanks, between blank lines and comments. |
| JavaDocuments.JavaSaysExactly | kantrip/properties_syntax.py:38-81 | A text is read as properties exactly when its lines say them, each key once and within the limits. |
| JavaRendering.RenderJavaProperties | kantrip/session.py:893-912 | Prints the specified lines, and refuses exactly keys that would break a line. |
| JavaRendering.UnescapeEscape | kantrip/session.py:893-912 | Unescaping an escaped ASCII value gives the value back. |
| JavaRendering.EscapedParity | kantrip/session.py:893-912 | Trailing backslashes of an escaped value come in pairs, so no line continues. |
| JavaRendering.SplitKey | kantrip/properties_syntax.py:84-100 | A printed line is split exactly after its dotted name, whatever the value holds. |
| JavaRendering.JavaRoundTrip | kantrip/session.py:893-912 | Parsing printed properties returns the original map, for dotted names and all ASCII values, in any order. |
| Librdkafka.ParseLibrdkafkaProperties | kantrip/properties_syntax.py:137-163 | The line loop computes the specified map or refuses, as `LibrdkafkaSaysExactly` determines. |
| Librdkafka.LibrdkafkaRoundTrip | kantrip/session.py:850-856 | Parsing printed properties returns the map exactly when no value has a control character. |
| Librdkafka.PrintingRefuses | kantrip/session.py:850-856 | Printing is refused exactly for an `=` or a line break in a key and a line break in a value. |
| LibrdkafkaDocuments.LibrdkafkaSaysExactly | kantrip/properties_syntax.py:137-163 | A text is read as properties exactly when its lines, apart from blank ones and comments, are dotted names, `=` and values without control characters, each name once and within the limits. |
| Jaas.QuotedValue | kantrip/properties_syntax.py:271-312 | The quoted-value loop reads the specified value and stops behind its closing quote. |
| Jaas.JaasTokens | kantrip/properties_syntax.py:227-268 | The tokenizer loop yields the specified tokens, or refuses. |
| Jaas.ParseJaasEntries | kantrip/properties_syntax.py:195-224 | The parser loops yield the specified login modules, or refuse. |
| JaasGrammar.QuotedExactly | kantrip/properties_syntax.py:271-299 | A quoted value is read exactly as it is written: characters, letter escapes, and one to three octal digits as far as they reach. |
| JaasDocuments.SpellsExactly | kantrip/properties_syntax.py:227-268 | A text has exactly the tokens that its words, numbers, quoted values, symbols, comments and blanks spell. |
| JaasDocuments.JaasSaysExactly | kantrip/properties_syntax.py:195-268 | A text is read as login modules exactly when it spells a module, a flag, distinct options and a semicolon for each. |
| JaasRendering.ReadsQuoted | kantrip/kafka.py:734-736 | Reading a quoted value gives it back and leaves what follows. |
| JaasRendering.JaasInverts | kantrip/kafka.py:598-607 | Reading a printed entry yields one module with exactly the printed options, whatever quotes and backslashes they hold. |
| KafkaProperties.ExportJava | kantrip/kafka.py:288-316 | Filling the dictionary step by step gives the specified Java properties, or a refusal. |
| KafkaProperties.AddJavaAuthentication | kantrip/kafka.py:579-657 | Each authentication adds exactly its specified properties. |
| KafkaProperties.ExportLibrdkafka | kantrip/kafka.py:319-359 | The same for librdkafka properties. |
| KafkaProperties.AddLibrdkafkaAuthentication | kantrip/kafka.py:660-731 | Each authentication adds exactly its specified properties. |
| ExportMeaning.JavaExportDescribes | kantrip/kafka.py:288-316 | Exported Java properties describe just the connection they were exported from, whatever its authentication and wherever its CA bundles are. |
| ExportMeaning.LibrdkafkaExportDescribes | kantrip/kafka.py:319-359 | The same for librdkafka properties, with client certificates and keys in files. |
| ExportMeaning.JavaExportRefuses | kantrip/kafka.py:288-316 | The Java export is refused exactly for credentials without TLS, for values a JAAS entry cannot hold, and for certificates without a place. |
| ExportMeaning.LibrdkafkaExportRefuses | kantrip/kafka.py:319-359 | The librdkafka export is refused exactly for credentials without TLS and for certificates without a place. |
| PropertyMapping.PropertyReader.Take | kantrip/property_mapping.py:62-64 | Returns the key's value and records exactly this key as consumed. |
| PropertyMapping.PropertyReader.Pem | kantrip/property_mapping.py:92-115 | Reads an inline or located PEM, refuses both together, and consumes both keys. |
| PropertyMapping.JavaPemIdentity | kantrip/property_mapping.py:195-208 | Consumes exactly the key-store keys and yields the specified identity. |
| RegistryProperties.UnqualifiedValues | kantrip/registry_properties.py:189-202 | Succeeds exactly when no key is given in both spellings, and keeps every value under its bare name. |
| RegistryProperties.UserInfoSplits | kantrip/registry_properties.py:218-226 | A user-info text names one user and one password: the split at the first colon. |
| RegistryProperties.ConfluentAuth | kantrip/registry_properties.py:165-180 | Selects the authentication that the file describes, consumes exactly its keys, and refuses exactly when it describes none. |
| RegistryProperties.ConfluentRegistry | kantrip/registry_properties.py:159-186 | Returns the Registry that the keys describe, which leaves no key out; refuses exactly when they describe none. |
| RegistryProperties.ApicurioRegistry | kantrip/registry_properties.py:267-302 | The same for Apicurio. |
| RegistryProperties.DescribesOnce | kantrip/registry_properties.py:68-88 | No file describes two Registries. |
| RegistryProperties.ParseRegistryProperties | kantrip/registry_properties.py:68-88 | Accepts exactly the files that describe a Registry of one kind, and returns that one, which leaves no Registry key out. |
| RegistryMeaning.RegistryIsExactly | kantrip/registry_properties.py:63-392 | The described Registry is the one that the literal keys and values say: URL, trust, verification, identity, login and namespace, over HTTPS where something is secured. |
| ClientImport.DialectProperties | kantrip/client_properties.py:180-232 | Infers the specified dialect from what each reader makes of the text and from marker keys. |
| ClientImport.SortKeys | kantrip/client_properties.py:153-174 | Each key goes to exactly one of the Kafka mapping, the Registry mapping and the ignored keys, or is refused. |
| ClientImport.ConnectionFrom | kantrip/client_properties.py:324-353 | The mapping yields the connection that `ConnectionExactly` determines, and the keys it took are exactly those that such a connection reads, among them all keys of the file; no option of a JAAS entry is unread. |
| ClientProperties.JaasIsUsed | kantrip/client_properties.py:403-457 | An accepted login read one JAAS entry all of whose options belong to its mechanism. |
| ClientImport.ParseClientProperties | kantrip/client_properties.py:146-177 | A text imports as a connection exactly when it describes it, in literal keys and values; a reading that sets certificate verification to something other than `true` or host name verification to something other than `https` is refused. No key is lost: each is one that the connection reads, belongs to the Registry, or is listed as ignored, disjointly; and each JAAS option is one that the login reads. |
| ImportMeaning.ReadAsExactly | kantrip/client_properties.py:180-260 | A file is read in the dialect of its own marker keys exactly when neither reading has one of the other dialect; without any, exactly when both readings agree. |
| ImportMeaning.ConnectionExactly | kantrip/client_properties.py:297-353 | Values are mapped to a connection exactly when their literal keys describe it: servers, verification, protocol, trust, identity or login; and all keys make it up. |
| ImportMeaning.JavaLoginExactly | kantrip/client_properties.py:403-485 | The Java login is exactly the one that the mechanism, the one required JAAS entry and the OAuth keys say. |
| ImportMeaning.LibrdkafkaLoginExactly | kantrip/client_properties.py:506-544 | The librdkafka login is exactly the one that its keys say. |
| ImportMeaning.WordsExactly | kantrip/property_mapping.py:163-167 | Scopes are exactly the words between white space. |
| ImportedFiles.ImportExactly | kantrip/client_properties.py:146-177 | A text imports as a connection exactly when it describes it; every key about Kafka or a Registry counts, none of them has a placeholder, and only other keys are ignored. |
| ImportedFiles.PropertiesExactly | kantrip/client_properties.py:146-177 | The same for properties that were read in some dialect. |
| DialectReading.JavaTextElsewhere | kantrip/client_properties.py:204-232 | What the librdkafka reader makes of printed Java properties, if it accepts them, has the same keys. |
| DialectReading.LibrdkafkaTextElsewhere | kantrip/client_properties.py:204-232 | What the Java reader makes of printed librdkafka properties, if it accepts them, has no other keys. |
| ExportImport.JavaConnectionComesBack | kantrip/client_properties.py:396-486 | The Java mapping inverts the Java export for plaintext, TLS, PLAIN, SCRAM and OAuth connections. |
| ExportImport.LibrdkafkaConnectionComesBack | kantrip/client_properties.py:489-544 | The librdkafka mapping inverts the librdkafka export. |
| ExportImport.JavaExportImports | kantrip/kafka.py:288-316 | Exporting as Java properties and importing the printed text is the identity exactly when no value looks like a placeholder, and a refusal otherwise. |
| ExportImport.LibrdkafkaExportImports | kantrip/kafka.py:319-359 | The same for librdkafka properties. |
| Placeholders.JoinedSpans | kantrip/client_properties.py:286-291 | A joined list looks like a placeholder exactly when one of its items does, or an earlier item opens what a later one closes. |
| Placeholders.LoginSpans | kantrip/kafka.py:598-607 | The printed login looks like a placeholder exactly when username and password do, alone or together. |
| Placeholders.JavaImportsByFields | kantrip/client_properties.py:286-291 | The Java round trip is the identity exactly when no field of the connection looks like a placeholder, alone or with the ones printed beside it. |
| Placeholders.LibrdkafkaImportsByFields | kantrip/client_properties.py:286-291 | The same for librdkafka, where username and password are printed apart. |
| Placeholders.BracedPasswordIsRefused | kantrip/client_properties.py:286-291 | A password in double braces is refused in either dialect. |
| Placeholders.BracesMeetInJavaOnly | kantrip/client_properties.py:286-291 | A username that opens and a password that closes are refused from Java properties only. |
| SessionRuntime.BehaviourIsSound | kantrip/runtime.py:119-213 | In every interleaving, locks, markers and phases of owners and scanners fit together. |
| SessionRuntime.ScansSpareLiveSessions | kantrip/runtime.py:475-536 | No step of a scan touches a session whose creator or supervisor is alive and has not closed it. |
| SessionRuntime.LiveSessionIsComplete | kantrip/runtime.py:148-213 | A published or running session keeps its directory, lock file, marker and lock. |
| SessionRuntime.CreatorsGetTheirLock | kantrip/runtime.py:148-213 | No scanner can make a creator's lock attempt fail. |
| SessionRuntime.LiveSessionsSeenActive | kantrip/runtime.py:475-511 | A scanner that looks at a live session can only see it as active. |
| SessionRuntime.DeadSessionsAreTaken | kantrip/runtime.py:475-536 | Nobody holds off a removing scan from a dead owner's session, and it deletes exactly a stale one. |
| SessionRuntime.OthersLeaveItAlone | kantrip/runtime.py:392-440 | While a removing scan runs, nobody else touches an ended session. |
| SessionScans.Runtime.CreateSession | kantrip/runtime.py:148-213 | Between any steps of others, creation succeeds exactly when nothing fails, and the session is then complete, locked and running. |
| SessionScans.Runtime.Close | kantrip/runtime.py:119-140 | Closing always ends the ownership and, when nothing fails, removes the directory. |
| SessionScans.DeadStayComplete | kantrip/runtime.py:475-536 | The session of an owner that died between writing its marker and closing stays complete, with that marker, until somebody deletes it. |
| SessionScans.LeftoverStays | kantrip/runtime.py:697-746 | A directory without its lock file whose owner is gone, and whose lock file nobody has open, stays so whatever anybody does. |
| SessionScans.ClosingCanLeaveIt | kantrip/runtime.py:119-140 | An owner that dies while closing, the lock file deleted first, leaves such a directory. |
| SessionScans.ScanCanLeaveIt | kantrip/runtime.py:697-746 | So does a scanner that dies while it deletes an ended owner's session. |
| SessionScans.Runtime.ScanOpenRoot | kantrip/runtime.py:392-439 | An unlimited removing scan in which nothing fails leaves no listed session that was abandoned and at least 300 seconds old when it began, and leaves every younger abandoned one as it was, whatever others do meanwhile; a limited one reports that it was cut short. |
| SessionScans.Runtime.InspectOpenSession | kantrip/runtime.py:475-511 | A removing scan deletes every complete stale session whose owner is gone, among them each whose owner died after writing a marker that is stale by now, and leaves a recent one alone. |
| SessionScans.Runtime.InspectUnlockedSession | kantrip/runtime.py:514-536 | Under the lock, the age alone decides what is reported and removed. |
| SessionScans.Runtime.DeleteOpenSession | kantrip/runtime.py:697-705 | Deleting ends with the lock released and, when nothing fails, the session gone. |
| KeychainLines.WiderDecimal | kantrip/macos_vault.py:438-448 | A larger number is never printed shorter, so the capacity computed for the largest numbers covers all. |
| KeychainLines.HexExactly | kantrip/macos_vault.py:450-454 | Each byte is printed as its sixteens and its ones. |
| KeychainLines.FromHexInverts | kantrip/macos_vault.py:450-454 | Decoding printed bytes gives the bytes. |
| KeychainLines.LineSays | kantrip/macos_vault.py:450-457 | A printed line determines its command: account, label, count and bytes, or the account to delete. |
| KeychainLines.CapacityIsLargest | kantrip/macos_vault.py:438-448 | The capacity is the largest number of bytes for which the longest line fits, and there is none exactly when 256 bytes may not fit. |
| KeychainLines.SplitsEvenly | kantrip/macos_vault.py:517-521 | All pieces but the last are as large as they may be. |
| KeychainLines.AccountsDiffer | kantrip/macos_vault.py:513-514 | Two pieces share an account only if they are the same piece of the same reference. |
| KeychainLines.SplitConcat | kantrip/macos_vault.py:517-521 | Splitting loses nothing. |
| KeychainLines.LinesFit | kantrip/macos_vault.py:415-457 | For every reference, label, path and value that the capacity check admits, every generated line is at most 4000 bytes, so the later length check never fires. |
| MacOSVault.BatchPrefix | kantrip/macos_vault.py:415-436 | A batch stopped after any line has changed exactly the items its lines name, and no other reference's. |
| MacOSVault.FreshWriteIsAllOrNothing | kantrip/macos_vault.py:400-436 | A fresh reference reads as absent until its head lands and as the whole value afterwards. |
| MacOSVault.OverwriteNeverIncomplete | kantrip/macos_vault.py:400-436 | Overwriting a complete entry never reads as incomplete; what it reads as at every point is given exactly. |
| MacOSVault.OverwriteIsSafeWhen | kantrip/macos_vault.py:415-436 | Every interrupted overwrite reads as the old or the new value, whatever they are, exactly when one of them has a single piece. |
| MacOSVault.InterruptedOverwriteCanMix | kantrip/macos_vault.py:415-436 | An overwrite of two pieces by two, stopped after one line, reads as a value that was never stored. |
| MacOSVault.FinishedWriteReadsBack | kantrip/macos_vault.py:400-436 | A finished write reads back the exact bytes. |
| MacOSVault.DeleteLeavesNothing | kantrip/macos_vault.py:251-267 | A completed delete leaves no item if and only if all pieces are below the head's count or, without a head, consecutive. |
| MacOSVault.InterruptedDeleteIsCollectable | kantrip/macos_vault.py:251-267 | An interrupted delete of an entry with its head leaves one that a later delete can finish. |
| MacOSVault.RetiringEndsEmpty | kantrip/macos_vault.py:251-267 | After one write stopped anywhere and any number of interrupted deletes of an entry with its head, a completed delete leaves no item. |
| MacOSVault.InterruptedHeadlessDelete | kantrip/macos_vault.py:258-264 | An interrupted delete without a head can be finished exactly when it was stopped before its first or after its last step; in between later deletes find nothing although pieces remain. |
| MacOSVault.HeadlessDeleteIsNotRestartable | kantrip/macos_vault.py:258-264 | A write stopped before its head and a delete stopped after one step leave a piece that no later delete finds. |
| KeychainVault.Vault.ReadEntry | kantrip/macos_vault.py:400-413 | The reading loop returns what the items mean: absent, invalid, incomplete or the value. |
| KeychainVault.Vault.Write | kantrip/macos_vault.py:415-436 | Wherever it stops, only this reference changed, a fresh one reads as absent or whole and a complete one as complete; success reads back the data. |
| KeychainVault.Vault.Delete | kantrip/macos_vault.py:251-267 | Wherever it stops, a prefix of the specified order is gone; success leaves nothing exactly for a collectable entry. |
| VaultRefinement.StoppedDeleteReads | kantrip/macos_vault.py:251-267 | From its first step on, a delete leaves nothing that can be read under the reference. |
| VaultRefinement.WriteRefines | kantrip/macos_vault.py:244-249 | For a vault that holds each secret in one entry, storing under a fresh reference and stopping anywhere is storing the secret or nothing. |
| VaultRefinement.DeleteRefines | kantrip/macos_vault.py:251-267 | Deleting and stopping anywhere is erasing the secret or nothing. |
| VaultRefinement.Set | kantrip/macos_vault.py:244-249 | The operation on such a vault has the effect that the two-store core assumes, and success has stored the secret. |
| VaultRefinement.Get | kantrip/macos_vault.py:230-242 | Reading returns exactly the secret that the vault holds, or that it holds none. |
| VaultRefinement.Delete | kantrip/macos_vault.py:251-267 | The operation has the effect that the two-store core assumes, and success has erased the secret. |
| SessionFiles.SessionFiles.Plan | kantrip/session.py:187-203 | A planned file's requirements are exactly the given paths, in their order; planning a new name after everything it requires keeps the plan acyclic and what was written sound. |
| SessionFiles.PlanIsAcyclic | kantrip/session.py:171-203 | No planned file is among its own requirements. |
| SessionFiles.SessionFiles.Write | kantrip/session.py:214-224 | Terminates and writes exactly the transitive requirements of the selected files, each once and after everything it requires. |
| SessionFiles.SessionFiles.WriteAll | kantrip/session.py:205-207 | Writes exactly what files that are not mere dependencies require; each such file is written with every path it was planned with. |
| SessionFiles.SessionFiles.WriteReferenced | kantrip/session.py:209-212 | Writes exactly what the files named by a value require; each named file is written with every path it was planned with. |
| SessionFiles.DependencyHasRequirer | kantrip/session.py:205-207 | A dependency is written by `write_all` only through a written file that requires it. |
| SessionFiles.WrittenIsClosed | kantrip/session.py:214-224 | Everything a written file requires, however indirectly, is written. |
| Kcat.KcatOptions | kantrip/adapter_policy.py:712-741 | The nested loops compute the recursive scan. |
| Kcat.ScanIsComplete | kantrip/adapter_policy.py:712-741 | Every command line of the option grammar is scanned to exactly its options. |
| Kcat.ScanIsSound | kantrip/adapter_policy.py:712-741 | Whatever the scan accepts is a command line of the grammar. |
| Kcat.ScanDistributes | kantrip/adapter_policy.py:712-741 | Unless the first part ends inside an option, scanning two parts is scanning the first and, if it did not stop at a terminator, then the second. |
| Kcat.ScanCutInOption | kantrip/adapter_policy.py:712-741 | A first part that ends inside an option takes the next argument as its value, and the scan goes on behind it. |
| Kcat.FirstOverride | kantrip/adapter_policy.py:696-709 | Finds no override exactly when no option replaces the profile's connection. |
| Kcat.RejectKcatOverrides | kantrip/adapter_policy.py:696-709 | Refuses the first overriding option and otherwise returns the scanned options. |
| Kcat.HarmlessExactly | kantrip/adapter_policy.py:689-693 | A property is accepted exactly when it is a group id or one of the three address families. |
| Kcat.LineOutcome | kantrip/adapter_policy.py:696-709 | The first overriding option of a line is the one that is refused; then a Registry that is missing or cannot be used. |
| Kcat.PrepareKcatCommand | kantrip/adapter_policy.py:329-341 | Accepts exactly the lines of the grammar without `-F`, `-r`, `-b` or an `-X` other than a group or an address family, and with the Registry they need; the command has the user's options in their order, behind the Registry exactly when an Avro option needs it; for every line the outcome is given, and what is no line is refused as unreadable. |
| Kcat.PreparedKeepsProfile | kantrip/adapter_policy.py:329-341 | A prepared command has the user's options in their order, none of which replaces the profile's connection, and before them the profile's Registry exactly when needed. |
| Kcat.PreparedWhen | kantrip/adapter_policy.py:329-341 | A command is accepted exactly when its arguments are a line of the grammar that keeps the profile and has the Registry it needs. |

## Left out

- Reconciliation.PendingSecretCleanup: does not model the validity of timestamps or the order of rows, because nothing else depends on them.
- RegistryProperties.ApicurioRegistry: Apicurio's certificates, inline or as a list of files, are one uninterpreted check.
- ProfileChanges.EditProfile: requires the guarantee about Registry credentials that the command line gives (see above).
- Jaas.JaasTokens: treats only ASCII digits as digits of a number token.
- MacOSVault.BatchPrefix: a batch stops after a line; a line that fails while later ones still run is not modelled (the source reports such a batch as failed).
- SessionFiles.SessionFiles.Plan: planning one name twice replaces its requirements as in the source, but keeps the plan acyclic only for new names; a file that is written partly before a failure is not tracked.
- SessionScans.Runtime.ScanOpenRoot: the counters of a scan, invalid names and entries, and the acquisition of the root lock are left out.
- Kcat.PrepareKcatCommand: `str.lower` is modelled on the letters that can become ASCII letters.
- ProfileEdits.EditConserves: profile documents and authentication sections, which the source edits as dictionaries in place, are values here; the model does not capture aliasing between a document and its sections.
- KafkaProperties.ExportLibrdkafka: models exports with session files; the modes that put certificate texts into the properties instead are left out, because nothing here reads them back.
- KafkaProperties.AddLibrdkafkaAuthentication: the same.
- Error messages and their locations: refusals are `None` or a bare error.
- Text round trips of exports with certificates or keys, whose properties `ExportMeaning` covers, and of non-ASCII values.
- Unlocking, creating and refusing the macOS vault, and the formats of `security` output; the Linux vault's D-Bus calls.
- SQL text, PRAGMAs, file modes, `fsync`, backups and migrations.
- Validation of certificates, keys, URLs and stored documents against the schema.
- TOML and YAML rendering for kcl and kaf, which nothing here reads back.
- The argument checks for cobra-based clients, kaskade and Java tools.
- The concrete list of session files that a connection plans.
- Supervisor terminals and signals, ping, version probes, shims, shell startup text, prompts, consoles and the website.
