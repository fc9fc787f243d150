# Bastion: verified models

Dafny models of the self-contained state machines and algorithms of the Bastion
daemon and its Python skills, with proofs of what they keep. Classes stand for
the objects the program updates in place; each of their methods is proved equal
to a step of a value-level specification, and the properties over whole runs are
proved about that specification. Check everything with
`dafny verify dfyconfig.toml`.

| file | what it models |
|---|---|
| FileTree, ImportPlan, ProductImport | the transactional import: a file tree whose every operation may fail, staging, publishing one rename at a time, undoing in reverse |
| ConfigStore, LegacyMigration | the append-only config log and the one-time import of legacy files, dying after any step |
| Routing | the routing table overlaid from TOML and the log |
| Proposals, ProposalDaemon, ProposalRuns, LiveProvider, SecretFlow | staged proposals: the create gate, once-only resolution, what an approval does to log, live handles and secrets, and what the next start makes of the log |
| Utf8, HttpCallback, CodexLogin | the loopback request reader and the two Codex login flows (RFC 6749 section 4.1.2, RFC 8628 section 3.5, RFC 9112 section 3) |
| ProviderAuth, CredentialState | the compare-and-swap store of credential records |
| SubscriptionAuth | connect, resolve and disconnect under interleaving and a moving fence |
| KnowledgeGraph | the bitemporal entity and relation tables |
| CrisisMode | crisis detection and the sacrifice algorithm |
| CommandCatalog | subsequence matching and the closest command |
| ConsoleLine, ConsolePrompt | how a console line is split, and the pending-prompt machine |
| Text, Wrappers | string operations of the Rust library, option and result types |

Outside code is a parameter: failing file operations are a set of clock values,
failing statements and vendor calls are booleans, replies and delays are
functions, clock readings and fresh ids are arguments. Character tables, YAML,
TOML and URL parsing are arbitrary functions; JSON values are datatypes of the
shapes used, so that serialising is injective.

## Findings

Where the code and its own comments, or two parts of the code, do not agree, the
model follows the code. The members named prove when it happens, and give an
input or a run where it does.

- Import: when the rename that restores the config fails, the value is dropped all
  the same and the backup goes with the staging directory; the new config stays
  (`Commit` says exactly when).
- Import: two names with one slug pass `prepare_at` and make `commit` fail and undo
  itself (`NamesCollapse`, `Import`).
- model_config: approval is not atomic by itself; exactly which approvals leave
  half behind is `ModelConfigPartialIff`, and only the create gate rules out the
  refused ladder.
- Fallback ladder: src/config_store.rs:45-49 says the ladder is read at startup
  only and that an empty list clears the override. The code swaps the live ladder,
  to the empty one too, which a restart then reads as no override
  (`LiveLadderMatchesRestart`).
- Chat model: at a start a usable `chat_turn` rule outranks the default model
  (src/main.rs:924-927). Approving either swaps the live provider, and approving
  rules without a chat_turn rule swaps nothing back, so the live model need not be
  the one the next start loads (`RestartKeepsLiveIff`, `ApprovedDefaultIff`,
  `ApprovedRulesIff`, `RuleOutranksLaterDefault`).
- Chat model: an approval publishes the key of its default from the secrets
  directory (src/proposals.rs:609-631); a start looks into the environment only and
  builds the default without asking (src/main.rs:970-973). With the key in a file
  alone, an approved default stops the next start if its provider cannot be built
  without the key (`ApprovedDefaultIff`).
- Legacy files: src/config_store.rs:261-263 says a corrupt file is skipped instead
  of failing startup. One that is not UTF-8 is an error before the log is asked, and
  ends this and every later startup (`StartupCompletesIff`,
  `BlockedStartupsStayBlocked`).
- Legacy files: src/config_store.rs:255-260 says the file is renamed so that the
  old writers are retired. After a crash between the append and the rename it never
  is, although it is not imported again either (`FileIsRetiredIff`,
  `UnretiredAfterStartupsIff`, `CrashBeforeRename`).
- Secrets: the gate asks only that a value is not empty and not too long. A value
  that is empty once its line end is trimmed, such as a lone newline, is accepted
  and later reads as not connected. A value with a NUL byte is accepted too;
  approving a model of its provider then calls `std::env::set_var`
  (src/proposals.rs:624), which panics and prints the value. These are the only ways a value shows (`SecretShowsIff`,
  `NewlineIsUnusable`, `NulEndsTheDaemon`).
- Secrets: the row is stored before the value is stashed (src/loadout.rs:735-742).
  An approval in between finds no value, and the value then stays in memory under a
  settled proposal (`LateSecretIff`, `ApprovedTooEarly`).
- Callback reader: UTF-8 is checked over all bytes read so far, so a non-ASCII byte
  behind a good request line can spoil it, depending on how the stream was cut
  (`ChunkingIndependentIff`, `CutInsideALetter`).
- Credential records: a swap that writes back what it expected wins, and the next
  racer wins too (`ExactlyOneWinsIff`).
- Subscriptions: src/subscription_auth.rs:328-329 says the gate is checked before
  every upstream call. It is checked once per operation, so closing it stops later
  calls exactly if no operation is under way (`ClosingStopsCallsIff`,
  `FenceIsNotCheckedPerCall`); what always holds is `ClosedGateMeansNoVendorCall`.
- Subscriptions: `connect` can return an error for a profile that is connected,
  when the state cannot be read after the label was written
  (`ResultTellsTheTableIff`).
- Knowledge graph: skills/memupalace/factory.py:93-98 passes a memory id as
  `source_id`, although the schema asks for an entity id and foreign keys are on
  (skills/memupalace/knowledge_graph.py:46 and 82). `AddRelation` answers such a
  call with an integrity error, which that caller swallows.
- Knowledge graph: foreign keys ask only that the endpoints exist, so a relation
  can be added to a closed entity, and `invalidate_by_memory` then lists an entity
  that was closed before (`AddKeepsTightIff`,
  `ClosedEntityIsListed`).
- Sacrifice: one negative duration is enough to lose optimality
  (`UnavoidableIff`, `NegativeHoursBreakIt`), or to fall back although a choice
  suffices (`FallbackIffImpossible`, `NegativeHoursForceFallback`).
- Console: the read-only whitelist splits at any whitespace, the dispatch at the
  first space. `/task<TAB>inspect cancel t1` is accepted as a lookup and dispatched
  as `cancel t1` (`ReadOnlyChangesIff`, `TabDefeatsTheWhitelist`).

## Model

| member | source | states |
|---|---|---|
| ProductImport.SlugIsOneComponent | src/product_import.rs:31-49 | an accepted slug is non-empty, within 80 bytes, made of slug characters, not fenced by dashes, and cannot name another directory |
| ProductImport.SlugIsFixpoint | src/product_import.rs:31-49 | naming a persona by its own slug gives the same slug |
| ProductImport.NamesCollapse | src/product_import.rs:31-49 | two different names that collapse to one slug |
| ProductImport.SlugIs | src/product_import.rs:31-49 | the slug of a name: trimmed, lower-cased, every other character a dash, dashes taken off both ends; and exactly which names have none |
| ProductImport.StagePersona | src/product_import.rs:51-123 | one persona is staged with its front matter and its system prompt as SOUL.md; with no faulty step it is refused for its text exactly when its tier is neither of the two or its front matter cannot be written; nothing outside staging changes |
| ProductImport.StagePersonas | src/product_import.rs:110-123 | all personas are staged in order, the last one winning where slugs collide |
| ProductImport.StageFiles | src/product_import.rs:125-145 | edited config, backup of the old one, and candidate list are staged beside the personas |
| ProductImport.PrepareAt | src/product_import.rs:81-159 | every outcome of preparing: version refused, nothing to apply, all staged with no destination taken, or refused with staging removed; never a change outside staging |
| ProductImport.PreparedProductImport.Publish | src/product_import.rs:164-184 | the publishing renames stop at the first failure, in a state that says exactly what is published and what is still staged |
| ProductImport.PreparedProductImport.Unpublish | src/product_import.rs:185-192 | published destinations are removed in reverse order |
| ProductImport.PreparedProductImport.Rollback | src/product_import.rs:185-201 | removal in reverse, then the config is renamed back from its backup; which step fails decides the outcome |
| ProductImport.PreparedProductImport.Drop | src/product_import.rs:209-215 | dropping the value deletes the staging directory, the backup with it, and nothing else |
| ProductImport.PreparedProductImport.Abandon | src/product_import.rs:185-215 | a failed publication ends with the old config, or with the new one and no backup exactly when the restoring rename is the step that fails |
| ProductImport.PreparedProductImport.Commit | src/product_import.rs:161-215 | all or nothing over every failing step and any number of personas: success publishes everything; failure with working undo steps leaves all but empty parent directories as before; it fails only for a fault, a repeated slug or an obstructed parent; undoing takes one step per published persona, one for the config and one for the staging directory, and the new config stays exactly when the second of these is the failing one |
| ProductImport.Import | src/main.rs:1556-1593 | the whole command: nothing applied changes nothing; a committed import has pairwise distinct slugs, and every entry's directory holds a SOUL.md of its own front matter and system prompt alone; anything else, when no undo step fails, leaves no trace but empty parent directories; the new config outlives a failure exactly when the step that restores it, counted from the first undo step, fails |
| ProductImport.EveryEntryInPlace | src/product_import.rs:110-123 | after a publication each entry has its own SOUL.md, alone in its own directory |
| ProductImport.DistinctNames | src/product_import.rs:164-184 | distinct published slugs mean that no two entries of the agent file shared one |
| ImportPlan.ConfigPublished | src/product_import.rs:165-168 | renaming the staged config over the live one keeps everything else staged and in place |
| ImportPlan.PersonaPublished | src/product_import.rs:169-175 | one persona rename moves that persona and disturbs no other destination |
| ImportPlan.CandidatePublished | src/product_import.rs:176-182 | the last rename completes the publication |
| ImportPlan.PersonaRemoved | src/product_import.rs:186-192 | taking one persona back is the inverse of publishing it |
| ImportPlan.ConfigRestored | src/product_import.rs:193-199 | restoring the backup brings back the old config and nothing else |
| ImportPlan.AllUndone | src/product_import.rs:185-201 | after every undo step the tree is the one before, up to empty parent directories |
| FileTree.FileSystem.Rename | src/product_import.rs:165-198 | a rename moves a whole subtree or, at a faulty step, changes nothing |
| FileTree.FileSystem.RemoveDirAll | src/product_import.rs:186-188 | removal takes a whole subtree; a faulty one may stop part-way, inside it |
| FileTree.RenamedPointwise | src/product_import.rs:165-198 | where every path is after a rename |
| ConfigStore.ConfigStore.Apply | src/config_store.rs:149-197 | one write appends one row and, with a channel, sends one event; no other key changes; a failed insert changes nothing |
| ConfigStore.LatestIsCurrent | src/config_store.rs:199-216 | `latest` reads the map the log stands for |
| ConfigStore.LogRefinesMap | src/config_store.rs:149-216 | any run of writes on the log is the same run of updates on a map, and older rows never change |
| ConfigStore.LatestUnaffected | src/config_store.rs:149-216 | a key that no later write names keeps its value |
| ConfigStore.HistoryIsReversedPrefix | src/config_store.rs:237-253 | `history(k, n)` is the first n of the rows of k read backwards |
| ConfigStore.HistoryStartsAtLatest | src/config_store.rs:199-253 | the newest history entry is what `latest` returns |
| ConfigStore.HistoryAfterWrite | src/config_store.rs:149-253 | a write goes to the front of its own key's history and leaves every other history alone |
| ConfigStore.AllLatestIsGroupedView | src/config_store.rs:218-235 | `all_latest` holds exactly the last row of every key, keys strictly ascending |
| ConfigStore.GroupedViewIsUnique | src/config_store.rs:218-235 | only one sequence is such a view, so the statement pins `all_latest` down |
| ConfigStore.AllLatestAgreesWithLatest | src/config_store.rs:199-235 | the grouped view has a row for a key exactly when `latest` has a value, and it is the same value |
| ConfigStore.ModelRoundTrip | src/config_store.rs:306-318 | a model id survives storage unchanged; a blank one reads as no override |
| ConfigStore.FallbackRoundTrip | src/config_store.rs:325-369 | a ladder survives storage unchanged; the empty one reads as no override |
| ConfigStore.RulesRoundTrip | src/config_store.rs:330-353 | stored routing rules come back trimmed, without blank classes or models, or as no override |
| LegacyMigration.Installation.MigrateLegacyFile | src/config_store.rs:265-300 | the import step by step, the process dying after any of them: exactly when it completes, and then one row with the value and the origin `migration`, and the file renamed with its content; a file that is not text is an error |
| LegacyMigration.AtMostOneImport | src/config_store.rs:265-300 | over any startups, each dying anywhere, mixed with other writes: one migration row per key at most, always the first row of its key, and no row ever changes |
| LegacyMigration.KeyInLogIsSettled | src/config_store.rs:265-300 | a key already in the log is never overridden by a startup |
| LegacyMigration.ImportStands | src/config_store.rs:265-300 | an imported file's value is what `latest` returns until the next apply of the key |
| LegacyMigration.ImportedModelIsRead | src/config_store.rs:255-318 | a legacy file `{"model": m}` is read back as m once imported, whatever startups come after |
| LegacyMigration.CrashesAreTransparent | src/config_store.rs:265-300 | startups that die, followed by one that does not, leave the log that one alone would have left |
| LegacyMigration.StartupIsIdempotent | src/config_store.rs:265-300 | a second uninterrupted startup changes nothing, and fails exactly if the first did |
| LegacyMigration.FileIsRetiredIff | src/config_store.rs:255-300 | over any events short of a new legacy file: the file is renamed if and only if it holds a JSON value, the log had no row for its key, and the first event to write one is a startup that lives through its rename; otherwise it stays unchanged |
| LegacyMigration.UnretiredAfterStartupsIff | src/config_store.rs:255-300 | after any startups that end in a completed one, an importable file is still there exactly when the first startup to append died before the rename |
| LegacyMigration.CrashBeforeRename | src/config_store.rs:265-300 | the crash that does it: imported by one startup, still unrenamed after a completed second one |
| LegacyMigration.Installation.MigrateAtStartup | src/main.rs:831-842 | both imports of a startup, which completes exactly when neither file is unreadable |
| LegacyMigration.StartupCompletesIff | src/config_store.rs:261-270 | a startup completes exactly when none of its legacy files is unreadable, even where the log already has their keys |
| LegacyMigration.BlockedStartupsStayBlocked | src/config_store.rs:261-270 | no startup, crash or apply changes whether a startup completes; only writing a legacy file anew does |
| Routing.ParseInvertsAsStr | src/routing.rs:85-106 | `parse` accepts exactly the five names, each giving its own class |
| Routing.Overlay | src/routing.rs:160-190 | one layer's loop over a map in any order: per class the layer's trimmed non-blank model, else the older rule |
| Routing.Resolve | src/routing.rs:160-190 | each class has the override's trimmed model and source, else the file's, else no rule, whatever the iteration order |
| Routing.LoadTable | src/routing.rs:220-230 | the table read from the log; an unreadable log counts as no override |
| Routing.LastRulesWin | src/routing.rs:160-230 | after any history of writes the last written map decides, then TOML |
| Routing.StoredRulesSayTheSame | src/config_store.rs:330-353 | storing and reading a rules map loses nothing that `resolve` would use |
| Routing.EmptyRulesRestoreToml | src/routing.rs:160-230 | writing the empty map restores the TOML table |
| Routing.EarlierRulesDoNotMatter | src/routing.rs:160-230 | a rules map replaces the one before it whole |
| Routing.ReportIsComplete | src/routing.rs:192-215 | the report lists the five classes by name, once each, in display order, with their effective rule |
| Proposals.GateMeansGated | src/loadout.rs:588-761 | what the create gate lets through, seen from the stored payload |
| Proposals.GateIff | src/loadout.rs:597-735 | exactly which requests are accepted, kind by kind, and as what payload, in the fields of the request |
| Proposals.RefusedForSizeIff | src/loadout.rs:597-735 | exactly which refusals are about size; every other one is a bad request |
| Proposals.DefaultOutcome | src/proposals.rs:633-680 | the default-model half of an approval is all or nothing |
| Proposals.LadderOutcome | src/proposals.rs:680-739 | the ladder half is all or nothing |
| Proposals.ModelConfigPartialIff | src/proposals.rs:633-739 | an approval leaves half of itself behind exactly when the default took effect and then the ladder was refused or its row not stored |
| Proposals.UngatedPayloadIsNotAtomic | src/proposals.rs:680-700 | a payload that never met the gate goes half live |
| Proposals.GatedApplyIsAtomic | src/proposals.rs:405-739 | any payload the gate accepted is applied all or nothing on log, live provider, live ladder and persona files, as long as the stores hold |
| Proposals.AppliedIff | src/proposals.rs:405-790 | exactly when each kind of payload goes through |
| Proposals.ChosenIs | src/main.rs:939-973 | the model a start comes up with, in terms of the keys in the environment |
| ProposalDaemon.DaemonState.InsertProposal | src/loadout.rs:588-735 | exactly the requests that can be staged are inserted, in their own fields, as one row and one request in flight; a refused request changes nothing |
| ProposalDaemon.DaemonState.FinishProposal | src/loadout.rs:736-761 | the rest of the handler: the secret into the pen, one notice, the answer |
| ProposalDaemon.DaemonState.Resolve | src/proposals.rs:360-387 | only a pending row of this owner is flipped, and a settled one never again |
| ProposalDaemon.DaemonState.Take | src/proposals.rs:155-168 | a secret value is handed out once |
| ProposalDaemon.DaemonState.ApplyModelConfig | src/proposals.rs:609-739 | done in full, or left half done exactly when the default took effect and the ladder did not, or not at all; publishing a key may panic |
| ProposalDaemon.DaemonState.ApplyRoutingConfig | src/proposals.rs:479-584 | applied exactly when every class and model is good, the chat_turn model can be built here and the row is stored |
| ProposalDaemon.DaemonState.ApplySecretSet | src/proposals.rs:741-790 | applied exactly for a known provider key whose value is in the pen and can be written; a file changes only by that value, which leaves the pen in the same step |
| ProposalDaemon.DaemonState.ApplyPersonaEdit | src/proposals.rs:412-444 | the slug holds the new content, its old text is backed up if there was one, and the answer says which; a refused edit changes nothing |
| ProposalDaemon.DaemonState.ResolveProviderSecret | src/proposals.rs:609-631 | a key that is set stays; else the stored value is published without the line ends behind it, and it is missing or panics exactly when nothing or a NUL is left |
| ProposalDaemon.DaemonState.Approve | src/agent/proposal_command.rs:146-173 | resolved once, in every outcome; it goes through exactly when the payload's conditions hold; a gated payload is applied all or nothing; a persona edit that goes through replaces that SOUL.md and backs the old one up, and nothing else touches one; a panic ends the process instead of answering |
| ProposalDaemon.DaemonState.Reject | src/agent/proposal_command.rs:175-184 | a rejected proposal changes nothing but its status |
| ProposalDaemon.DaemonState.BootProvider | src/main.rs:918-973 | the model a start comes up with: the chat_turn rule where it can be used, else the stored default, else the one of the file, which must then be buildable |
| ProposalDaemon.DaemonState.Start | src/main.rs:918-1021 | a start loads both handles from log and file, or fails; nothing of the old process is left |
| ProposalRuns.StepKeeps | src/proposals.rs:283-387 | no step alters a payload or reopens a proposal; the log only grows |
| ProposalRuns.RunKeepsGatedTable | src/loadout.rs:588-761 | in every run, every stored payload is one the gate accepted |
| ProposalRuns.ApprovalsAreAtomic | src/proposals.rs:405-739 | hence every approval in any run is all or nothing |
| ProposalRuns.SettledStaysSettled | src/proposals.rs:360-387 | a settled proposal is never resolved again, and its secret never comes back unless its own create request has yet to stash it |
| ProposalRuns.ResolvedAtMostOnce | src/proposals.rs:360-387 | in any run a proposal is resolved at most once |
| ProposalRuns.PersonaHoldsLastEdit | src/proposals.rs:412-444 | over any run a persona holds the content of its last applied edit |
| ProposalRuns.NoTextIsLost | src/proposals.rs:412-444 | over any run every text a persona ever had is still its own or has been backed up |
| ProposalRuns.SecretIsTakenAtMostOnce | src/proposals.rs:155-168 | in any run the value under an id leaves the pen at most once, and never once its proposal is settled, restarts aside |
| ProposalRuns.FilesComeFromThePen | src/proposals.rs:741-790 | a secrets file changes only by the value that leaves the pen in that step, under the key of its payload |
| ProposalRuns.LateSecretIff | src/loadout.rs:735-742 | the value of a settled proposal turns up in the pen exactly when it was settled with its create request in flight and the handler of that request gets to its end while the daemon is up |
| ProposalRuns.ApprovedTooEarly | src/loadout.rs:735-742 | such a run: the approval finds no value, and the value then stays behind |
| ProposalRuns.LiveLadderMatchesRestart | src/proposals.rs:700-739 | after any run the live ladder is the one a restart would load, except exactly when the last ladder reported as applied since the last restart was the empty one and the TOML ladder is not empty |
| ProposalRuns.LastLadderSurvives | src/config_store.rs:325-369 | the last ladder applied since the last restart is live; the next restart loads it unchanged, or the TOML one if it was empty |
| LiveProvider.RunFollows | src/main.rs:918-973 | over any run with restarts: the live model is the last approved default or chat_turn rule, or what the last start chose since; the stored default and rule are the last approved ones |
| LiveProvider.RestartKeepsLiveIff | src/main.rs:918-973 | after any run, a restart keeps the live model exactly when a usable chat_turn rule names it or, without a usable rule, it is the stored default and can be built; the restart fails exactly when there is neither |
| LiveProvider.ApprovedDefaultIff | src/proposals.rs:633-685 | an approved default is live at once; the next start keeps it exactly when no usable rule names another and, without one, it can be built; without a usable rule the start fails exactly when the environment lacks its key, wherever else that is stored, and it cannot be built without |
| LiveProvider.ApprovedRulesIff | src/proposals.rs:479-584 | approved rules swap the live model only if they have a chat_turn rule, so rules without one leave a model live that the next start keeps only if it would choose it anyway |
| LiveProvider.RuleOutranksLaterDefault | src/main.rs:924-973 | two approvals after which one model is live and every start loads another |
| SecretFlow.SecretsStayInvisible | src/proposals.rs:741-790 | two runs differing only in secret values that read back alike give the same messages, proposal rows, log rows and notices |
| SecretFlow.SecretShowsIff | src/proposals.rs:609-631 | two accepted values are told apart by what is seen exactly when they read back differently: as no key, as a key, or as text that set_var refuses with a panic quoting it |
| SecretFlow.NewlineIsUnusable | src/secret.rs:57-83 | the gate accepts a lone newline, which reads back as no key |
| SecretFlow.NulEndsTheDaemon | src/proposals.rs:609-631 | the gate accepts a value with a NUL byte; publishing it ends the daemon with the value in the panic text |
| Utf8.InvalidStays | src/codex_connector.rs:487-488 | bytes that break UTF-8 checking cannot be repaired by what follows them |
| Utf8.StopsInsideCharacter | src/codex_connector.rs:487-488 | text cut right after the first byte of a multi-byte character is not valid |
| HttpCallback.ReadCallback | src/codex_connector.rs:474-511 | the read loop stays in its 8192-byte buffer, ends, and gives what parsing some stopping point of the stream gives |
| HttpCallback.StopIsReachedIff | src/codex_connector.rs:474-486 | the stopping points are exactly the places where some schedule of reads stops |
| HttpCallback.LastPairWins | src/codex_connector.rs:498-511 | of several query pairs with one name the last counts |
| HttpCallback.MissingPair | src/codex_connector.rs:498-511 | a name that is not there stays absent |
| HttpCallback.SameLine | src/codex_connector.rs:487-497 | bytes after the request line do not change it |
| HttpCallback.CallbackIsParsedIff | src/codex_connector.rs:487-511 | a callback is parsed exactly when the bytes are text whose first line is a GET of the callback path |
| HttpCallback.RequestLineIs | src/codex_connector.rs:487-511 | a three-word request line is a callback exactly for GET and a URL with the callback path, with the parameters of that URL |
| HttpCallback.ChunkingIndependentIff | src/codex_connector.rs:474-511 | the result is the same for every two schedules of reads exactly when the window has no CR LF, or its request line asks for no callback, or the rest of the window is ASCII |
| HttpCallback.CutInsideALetter | src/codex_connector.rs:474-511 | a callback request with an accented letter behind it: answered when read in one go, refused when a read ends inside the letter |
| HttpCallback.AsciiStreamsParseTheSame | src/codex_connector.rs:474-511 | for an ASCII stream every split gives what parsing the first 8192 bytes in one go gives |
| CodexLogin.StrayRequestsDoNotMatter | src/codex_connector.rs:358-418 | deleting stray and wrong-state requests does not change the login outcome |
| CodexLogin.SameRelevantSameDecision | src/codex_connector.rs:358-418 | outcomes depend only on the requests that carry our state |
| CodexLogin.ExchangeIff | src/codex_connector.rs:377-400 | a code is exchanged exactly when the first request that is ours carries it and all before were stray |
| CodexLogin.SuccessIsAnsweredIff | src/codex_connector.rs:368-417 | the browser is told of success exactly when a code was exchanged and its token stored |
| CodexLogin.PollsAreBounded | src/codex_connector.rs:303-343 | at most ceil(900 / max(1, interval)) polls, whatever the replies and delays |
| CodexLogin.BoundIsReached | src/codex_connector.rs:303-343 | the bound is met when every reply is pending |
| CodexLogin.TransientIsPending | src/codex_connector.rs:318-343 | transient poll errors are equivalent to pending replies |
| CodexLogin.ExchangeNeedsAuthorization | src/codex_connector.rs:312-355 | a token is exchanged only for the reply that authorised it, after replies that kept waiting |
| CodexLogin.DeviceExchangeIff | src/codex_connector.rs:312-343 | a code is exchanged exactly when some poll made before the deadline, after replies that all asked to wait, is answered with it |
| CodexLogin.OneCodeOneToken | src/codex_connector.rs:303-443 | one login spends at most one code; it succeeds exactly when the exchange and the write do; then the exchanged token is stored for this reference only, and otherwise nothing changes |
| CodexLogin.CodexConnector.Remember | src/codex_connector.rs:247-253 | logins as old as the window are swept, this one is kept |
| CodexLogin.CodexConnector.WaitForBrowser | src/codex_connector.rs:358-418 | the accept loop: the first request with this login's state decides, its code is exchanged and the record stored, and every request handled gets its status |
| CodexLogin.CodexConnector.WaitForDevice | src/codex_connector.rs:303-356 | the poll loop: the first reply that does not ask to wait decides, else the end of the window; an authorised one is exchanged and stored; the polls stay within the bound |
| CodexLogin.CodexConnector.WaitForApproval | src/codex_connector.rs:584-604 | a login is taken out of the map once; without one nothing happens; a device login succeeds exactly when a poll that is made is authorised, exchanged and stored, a browser login as its first own request decides; at most one more code is sent, and a token is stored for this reference only and only on success |
| CredentialState.SqliteCredentialStateStore.CompareAndSwap | src/provider_credential_state.rs:136-175 | insert-or-ignore and conditional update together: won exactly when `expected` is what is stored, otherwise nothing changes |
| CredentialState.SqliteCredentialStateStore.Load | src/provider_credential_state.rs:108-134 | what is stored, or none |
| CredentialState.SqliteCredentialStateStore.Delete | src/provider_credential_state.rs:177-195 | one reference is removed, all others stay |
| CredentialState.ReferencesAreIndependent | src/provider_credential_state.rs:108-195 | under any interleaving of clients each reference behaves as a register of its own |
| CredentialState.WritesFormAChain | src/provider_credential_state.rs:136-193 | each winner's `expected` is the record the previous write left; losers change nothing |
| CredentialState.ExactlyOneWins | src/provider_credential_state.rs:136-193 | racers on the stored record, each writing something new: exactly the first wins and its record stays |
| CredentialState.ExactlyOneWinsIff | src/provider_credential_state.rs:161-172 | without that proviso: how many win, and that it is one exactly when the first racer changes the record or is alone |
| SubscriptionAuth.SubscriptionAuthService.Connect | src/subscription_auth.rs:362-408 | refused before any call, or login, approval, refresh, label and read, each only after the one before succeeded, the first failure being the result |
| SubscriptionAuth.SubscriptionAuthService.ResolveProvider | src/subscription_auth.rs:496-520 | refused before any call, or refreshed and built; the labels are not touched |
| SubscriptionAuth.SubscriptionAuthService.Disconnect | src/subscription_auth.rs:449-476 | a closed gate skips the revocation only; a failed revocation is not an error, a failed forget is |
| SubscriptionAuth.RunKeeps | src/subscription_auth.rs:330-520 | the invariant of every interleaving: operations are admitted once, ordered, and the label table is the fold of the label writes |
| SubscriptionAuth.ClosedGateMeansNoVendorCall | src/subscription_auth.rs:330-341 | an operation that began with the gate closed never logs in, refreshes or revokes |
| SubscriptionAuth.LabelsNeedAProvenCredential | src/subscription_auth.rs:356-406 | no label without a login, an approval and a refresh that succeeded |
| SubscriptionAuth.LabelsGoAfterForget | src/subscription_auth.rs:449-476 | the label of a registered provider goes only after its local state was forgotten |
| SubscriptionAuth.DisconnectInFull | src/subscription_auth.rs:449-476 | the vendor is asked exactly when the provider is registered and the gate open, and its answer changes nothing |
| SubscriptionAuth.ClosingStopsCallsIff | src/subscription_auth.rs:328-341 | in any reachable state, closing the fence stops every later vendor call, until it moves again, if and only if no operation is between its check and its last vendor call, or there is no fence |
| SubscriptionAuth.FenceIsNotCheckedPerCall | src/subscription_auth.rs:374-401 | a run in which the fence closes inside `connect` and the refresh still goes out |
| SubscriptionAuth.LabelTable | src/subscription_auth.rs:191-241 | over any interleaving, the label table is exactly the references whose last connect has no later disconnect, with their labels |
| SubscriptionAuth.UninterruptedIsAlone | src/subscription_auth.rs:362-520 | the interleaved machine, left alone, does what the methods do |
| SubscriptionAuth.ResultTellsTheTableIff | src/subscription_auth.rs:403-407 | a returned result tells what happened to the table, except exactly when an admitted connect writes a new label and then cannot read the state |
| SubscriptionAuth.ResultsTellTheTable | src/subscription_auth.rs:403-476 | when the state can be read, the table is determined by the returned results alone |
| KnowledgeGraph.KnowledgeGraph.UpsertEntity | skills/memupalace/knowledge_graph.py:128-155 | the first active entity of the name, or one new row with the given fields; an id collision changes nothing |
| KnowledgeGraph.KnowledgeGraph.AddRelation | skills/memupalace/knowledge_graph.py:184-205 | exactly when the id is new and both endpoints have a row, one new open row, directed and labelled as asked; otherwise an integrity error and no change |
| KnowledgeGraph.KnowledgeGraph.Invalidate | skills/memupalace/knowledge_graph.py:236-251 | closes the entity and every active relation that touches it, keeps every earlier end |
| KnowledgeGraph.KnowledgeGraph.InvalidateByMemory | skills/memupalace/knowledge_graph.py:253-271 | returns without duplicates exactly the endpoints of the memory's active relations, and closes each of them in turn with the relations it touches first |
| KnowledgeGraph.KnowledgeGraph.GetEntities | skills/memupalace/knowledge_graph.py:157-178 | exactly the active entities joined to an active relation of the memory |
| KnowledgeGraph.KnowledgeGraph.GetRelations | skills/memupalace/knowledge_graph.py:207-230 | exactly the active relations that touch the entity |
| KnowledgeGraph.MemoryIsGone | skills/memupalace/knowledge_graph.py:253-271 | after the cascade no endpoint is active, no active relation touches one, and `get_entities` is empty |
| KnowledgeGraph.OtherRowsStay | skills/memupalace/knowledge_graph.py:253-271 | a row changed if and only if it was active and in reach |
| KnowledgeGraph.CascadeClosesEntity | skills/memupalace/knowledge_graph.py:253-271 | each entity is closed at the moment the cascade first names it |
| KnowledgeGraph.CascadeClosesRelation | skills/memupalace/knowledge_graph.py:236-271 | each relation is closed at the first endpoint reached |
| KnowledgeGraph.RunKeeps | skills/memupalace/knowledge_graph.py:128-271 | in every reachable state: one active entity per name, endpoints exist, unique ids, no row disappears, an end once set never changes |
| KnowledgeGraph.UpsertTwice | skills/memupalace/knowledge_graph.py:128-155 | a second upsert of a name returns the same id and writes nothing |
| KnowledgeGraph.NewVersionAfterInvalidate | skills/memupalace/knowledge_graph.py:128-155 | after an invalidation the next upsert adds a new version beside the closed one |
| KnowledgeGraph.InvalidateKeepsTight | skills/memupalace/knowledge_graph.py:236-251 | invalidation leaves no active relation dangling |
| KnowledgeGraph.AddKeepsTightIff | skills/memupalace/knowledge_graph.py:184-205 | a successful add leaves one dangling exactly when an endpoint is no longer active |
| KnowledgeGraph.ClosedEntityIsListed | skills/memupalace/knowledge_graph.py:184-271 | a run after which the cascade lists an entity that was closed before |
| CrisisMode.DetectCrisis | skills/crisis-mode/crisis_mode.py:119-171 | trigger first, then the capped sum of keyword weights against 0.8 |
| CrisisMode.ScoreCapped | skills/crisis-mode/crisis_mode.py:145-152 | capping after every keyword is capping once at the end |
| CrisisMode.KeywordCounts | skills/crisis-mode/crisis_mode.py:145-149 | a keyword adds its weight once if the text has it, wherever it stands in the table |
| CrisisMode.CrisisIsMonotone | skills/crisis-mode/crisis_mode.py:119-171 | text around a crisis message never makes it less of one |
| CrisisMode.SortIsStable | skills/crisis-mode/crisis_mode.py:226-227 | the order of the candidates: by priority, a permutation, ties in input order |
| CrisisMode.SacrificeAlgorithm | skills/crisis-mode/crisis_mode.py:179-270 | fallback exactly when the candidates total under two hours; otherwise the shortest prefix that frees them; only movable tasks below six tenths of the raised weight are ever given up |
| CrisisMode.CandidatesComeFromTasks | skills/crisis-mode/crisis_mode.py:205-227 | the candidates are exactly the movable tasks below the boosted threshold, sorted |
| CrisisMode.UnavoidableIff | skills/crisis-mode/crisis_mode.py:226-257 | for any durations: every sufficient choice reaches a priority exactly when the helpful tasks below it do not suffice |
| CrisisMode.SufficientChoiceIff | skills/crisis-mode/crisis_mode.py:226-246 | for any durations: some choice frees enough exactly when the candidates that free time do so together |
| CrisisMode.GreedyIsBottleneckOptimal | skills/crisis-mode/crisis_mode.py:226-257 | with no negative hours, every sufficient choice gives up something at least as important as the most important task selected |
| CrisisMode.FallbackIffImpossible | skills/crisis-mode/crisis_mode.py:229-246 | for any durations: fallback means that no choice would have sufficed, except exactly when tasks that cost time pull the total below the target which the others reach; with no negative hours there is no exception |
| CrisisMode.NegativeHoursBreakIt | skills/crisis-mode/crisis_mode.py:226-257 | one negative duration is enough to lose optimality |
| CrisisMode.NegativeHoursForceFallback | skills/crisis-mode/crisis_mode.py:229-246 | two tasks for which the algorithm falls back although one of them suffices |
| CommandCatalog.SubsequenceMatch | src/command_catalog.rs:306-312 | true exactly when a strictly increasing embedding of the lower-cased needle exists |
| CommandCatalog.GreedyIsComplete | src/command_catalog.rs:306-312 | taking first occurrences finds an embedding whenever there is one |
| CommandCatalog.PrefixMatches | src/command_catalog.rs:299-312 | a prefix matches, and every name matches itself |
| CommandCatalog.MatchingIsTransitive | src/command_catalog.rs:306-312 | matching is transitive |
| CommandCatalog.MatchingIsAntisymmetric | src/command_catalog.rs:306-312 | two names that match each other differ in case only |
| CommandCatalog.ClosestCommand | src/command_catalog.rs:318-330 | the first of the most similar names and aliases, if one reaches 0.75; none exactly when none does |
| CommandCatalog.ClosestIsUnique | src/command_catalog.rs:318-330 | only one answer fits that description |
| ConsoleLine.LineShape | src/main.rs:1628-1632 | a trimmed line is its first token, a gap and the rest |
| ConsoleLine.SplittersAgreeIff | src/main.rs:1628-1632 | the whitelist and the dispatch read the same argument exactly when there is none or the gap holds a space |
| ConsoleLine.WhitelistIs | src/main.rs:1628-1641 | exactly which commands with which arguments are whitelisted |
| ConsoleLine.ReadOnlyChangesIff | src/main.rs:1626-1641 | exactly which whitelisted lines are dispatched as a changing subcommand |
| ConsoleLine.SpacedLinesAreSafe | src/main.rs:1626-1641 | with a space after the command the whitelist is right |
| ConsoleLine.TabDefeatsTheWhitelist | src/main.rs:1626-1641 | a line accepted as `inspect` and dispatched as `cancel` |
| ConsolePrompt.DaemonLoop.NextLine | src/main.rs:3024-3375 | one iteration of the stdin arm: with no prompt open a blank line is nothing, a command is dispatched and any other line is a turn; with one open a lookup leaves it and any other line is its reply; when it stops |
| ConsolePrompt.RunIsOrderly | src/main.rs:3016-3214 | over any lines: prompts open only into an empty slot, are resolved while open, and meanwhile only lookups are dispatched and nothing becomes a turn |
| ConsolePrompt.TurnsAreThePlainLines | src/main.rs:3024-3450 | over any run the turns are exactly the lines, neither blank nor commands, read while no prompt was open, in order |
| ConsolePrompt.PromptsAreConserved | src/main.rs:3016-3214 | every prompt is resolved once, except the one still open |
| ConsolePrompt.PromptSurvivesLookups | src/main.rs:3041-3058 | an open prompt survives every whitelisted line |
| ConsolePrompt.NextOtherLineAnswers | src/main.rs:3053-3100 | and is answered by exactly the next other line, an empty one included, which is itself neither dispatched nor a turn |
| ConsolePrompt.ReadOnlyNeverAsks | src/agent/extension_command.rs:86-122 | a whitelisted line never opens a second prompt |

## Left out

- SecretsStayInvisible: asks that two runs' values read back alike (both as no key, both as a key, or both as the same unpublishable text); `SecretShowsIff` shows that without this the claim is false, and for which values.
- SecretsStayInvisible: whether a provider can be built is taken to depend on the model's name and on whether its key is set; a constructor that looks at the value of the key could be told apart.
- GreedyIsBottleneckOptimal: asks for non-negative hours, as the algorithm's own description does; `UnavoidableIff` gives the exact condition for any hours.
- SlugIsFixpoint: asks that lower-casing is settled on the slug's characters, which is a fact about the character tables, not about the code.
- Import: the memory import between prepare and commit is one boolean; what it restores is not part of this model.
- Import: a directory entry is a file or a directory; permissions, links, other mount points and other processes writing to the same tree are not modelled.
- Config log: each SQL statement is one atomic step on a sequence of rows.
- Apply: the payload text of the broadcast event and a channel without listeners are not modelled.
- Config log: `backend_selection_from_value_json` is left out: it is a parse without a writing partner here.
- Routing: `RouteClass::supported` and `hot` are constant tables.
- RestartKeepsLiveIff: the routing rules can be read at a start; the code treats a read that fails as no override and goes on.
- RestartKeepsLiveIff: `/model` and `/model reset` write the same key and swap the same handle from the console; they are not steps of these runs, and neither are the providers of the other routing classes.
- MigrateLegacyFile: an error of the log or of the rename ends the startup just there, and counts as dying at that step.
- Proposals: listing, showing and describing proposals are views; the text of a summary line is reduced to its parts.
- Proposals: a panic in the console loop is taken to end the process, as the loop runs in `main`; what a supervisor does then is a restart, or nothing.
- Proposals: a secret or persona file that is only partly written, the permissions of a secret file, and the names of persona backups.
- Proposals: the persona contract, provider kinds and provider construction are parameters.
- Codex login: starting a login, PKCE, the two callback ports and the vendor's HTTP bodies; the token table is a map whose write may fail.
- WaitForBrowser: requests arrive as a sequence that ends at the deadline; how long one accepted connection may take is not modelled.
- HttpCallback: `url::Url::parse` is an arbitrary function of the text, giving a path and query pairs.
- Credential records: the record's serialisation is assumed injective, so text equality is record equality.
- Subscriptions: `list` and `status` read one state per row and stop at the first failure; the lifecycle behind refresh, forget and revoke is one outcome each. The epoch numbers of the fence are reduced to whether this device is the current primary, and may change in any way.
- Subscriptions: a label statement that took effect but was reported as failed.
- Knowledge graph: schema migration of old files, the order in which SQL returns rows, and a cascade that stops half-way because the process dies.
- Crisis mode: floating-point rounding (reals are used), the persona and the markdown record written afterwards.
- DetectCrisis: lower-casing is per character, so the one context-dependent rule (final sigma) is not modelled.
- Command catalogue: help text, scopes and the lookups by name are filters over a constant table; the similarity measure is a parameter.
- Console: what the handlers of generic commands do with their line, and the other arms of the loop (channels, nudges, signals), which never touch the prompt.
- Embeddings, salience, caches, the dashboard and the other modules of the daemon are not part of this model.
