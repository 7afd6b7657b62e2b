# Account pools, limits and storage of an AI gateway

The gateway forwards model requests to upstream *channels*. A channel holds an ordered list of credentials (*accounts*)
and several maps keyed by list position. This project models the parts of the gateway that keep such state consistent,
and proves what holds over every run of them. Operations are given as functions on saved states. Where the gateway
updates state in place, a class performs the same work and is proved to reach the state the function gives; loops are
loops with invariants, and a loop over a Go map is proved for every iteration order.

| module | subject |
|---|---|
| `AccountPool` | the channel and its operations as functions; steps and runs |
| `PoolInvariant` | the invariant of every run |
| `PoolAccounts` | what each operation does to each single account |
| `PoolDeletion` | renumbering: survivors, batches, import undone |
| `PoolAccess` | which credentials can serve requests, ability rows, manual disable |
| `PoolOutcome`, `PoolService` | when each step goes ahead, the status it leaves, who can serve, what is reported |
| `ChannelRecord` | the same operations in place |
| `AccountArchive` | live lists, invalid pool and discarded pool; conservation |
| `CodexEnvironment` | environments moving from position keys to account keys |
| `RateLimiter` | the bounded queue against the full-history window |
| `VerificationCode` | lazy expiry against a ledger that never sweeps |
| `OggScanner` | granule positions of an Ogg stream |
| `BodyStorage`, `BodyCache`, `BodyObjects` | request bodies in memory and on disk, usage counters |
| `UpstreamModels`, `ListText` | model lists, pending changes, lists stored as text |
| `UsageWindow`, `CostProfile`, `AuthRecovery` | aggregation, selection and counting loops |
| `Text`, `Seqs` | trimming, ordered lists without repetition |

Where an expected property is false of the code, the code is kept and the exact condition is proved:

- Deleting down to one account drops the status maps before enabled accounts are counted, so a disabled survivor is
  enabled; its reason, time and limit go too (`SurvivorsKeepStatusIff`, `SurvivorsKeepAccountsIff`, `CollapseEnables`).
- Importing into a channel with one account and deleting the imports again enables the channel, even if it was disabled
  by hand, and drops the account's limit (`ImportThenDeleteStatusIff`, `ImportThenDeleteIff`, `UndoneSoleEnables`).
- Deletion, import and a balance pause replace a manual disable by an automatic one when no account is left enabled
  (`DeleteKeepsManualIff`, `ImportKeepsManualIff`, `BalanceKeepsManualIff`; all steps together in `StepKeepsManualIff`).
- Pausing and resuming the only enabled account enables a channel that was disabled by hand
  (`PauseThenResumeStatusIff`).
- A balance step writes the ability rows from the number of enabled accounts, not from the status (`BalanceAbilityIff`).
- The limiter forgets too early when a duration exceeds the expiration by more than a second
  (`LimiterRefinesWindowIff`); a maximum of zero admits as much as a maximum of one.
- The reader limit `maxBytes + 1` wraps at the largest 64-bit integer (`IntakeExactIff`); a streamed body is checked
  against the quota by its announced length only (`StreamKeepsQuotaIff`); the quota test itself wraps (`RunKeepsQuotaIff`).
- An empty read at the end of a body answers differently from memory and from disk (`ReadAlikeIff`).
- Migrating and clearing environments have twins to heed (`CleanupKeepsLookupIff`, `ClearTakesEffectIff`).
- An upstream model whose name is itself an ignore pattern can keep reconciliation from converging (`ConvergesIff`).
- Lists stored as text come back exactly when their items allow it (`ParseJoinIff`, `ModelsTextIff`), and account keys
  only if the text is not taken for a JSON array (`KeysTextIff`).

Reading the project: `dafny verify dfyconfig.toml` checks all of it.

## Model

| member | source | states |
|---|---|---|
| `PoolInvariant.RunKeepsGood` | controller/channel_account.go:4085-4218 | Over every run of delete, import, restore, status, credential, proxy, balance-pause, balance-resume and balance-clear steps from a good channel: trimmed keys stay pairwise distinct, the recorded size is the key count, the multi-key flag holds exactly above one key, every map position is in range, no status entry says enabled, no enabled account means the channel is not enabled, and automatic disable for a blank or all-disabled reason means no account is enabled |
| `PoolInvariant.ApplyKeepsGood` | controller/channel_account.go:4450-4467 | Each single step, refused or done, takes a good channel to a good channel |
| `PoolInvariant.RemoveKeepsGood` | controller/channel_account.go:4085-4218 | Deleting any set of positions keeps the invariant, also when one account or none survives |
| `PoolInvariant.ImportKeepsGood` | controller/channel_account.go:3749-3841 | Importing any lines, in either mode and with any concurrency limit, keeps the invariant |
| `PoolInvariant.ReconcileImportGood` | controller/channel_account.go:3843-3894 | The status fix-up after an import turns any well-shaped longer channel into a good one, in the zero-to-one, one-to-many and many-to-many cases |
| `PoolInvariant.RestoreKeepsGood` | controller/channel_account.go:2744-2861 | Restoring an archived account, by an administrator or for re-authorisation, keeps the invariant |
| `PoolInvariant.StatusKeepsGood` | controller/channel_account.go:3183-3224 | Enabling or disabling any list of positions, on single-key and multi-key channels, keeps the invariant |
| `PoolInvariant.CredentialKeepsGood` | controller/channel_account.go:3096-3181 | Replacing a credential keeps the invariant, in particular keys stay distinct |
| `PoolInvariant.ProxyKeepsGood` | controller/channel_account.go:3249-3318 | Binding or unbinding proxies keeps the invariant |
| `PoolInvariant.PauseKeepsGood` | controller/channel_balance_monitor.go:887-957 | Pausing an account for its balance keeps the invariant |
| `PoolInvariant.ResumeKeepsGood` | controller/channel_balance_monitor.go:887-957 | Resuming an account after a balance pause keeps the invariant |
| `PoolInvariant.ClearKeepsGood` | controller/channel.go:1001-1072 | Lifting all balance pauses keeps the invariant |
| `PoolInvariant.CleanMapsShape` | controller/channel_account.go:4371-4434 | After map cleanup every position of every map is in range and no status entry says enabled; a status map that was clean is untouched |
| `PoolInvariant.CleanMapsStableIff` | controller/channel_account.go:4371-4434 | Cleanup changes nothing at all if and only if every position is in range, every status disables, every proxy and limit is positive and every type is known |
| `PoolInvariant.ReconcileFollows` | controller/channel_account.go:4195-4202 | From any state at all, each of the three reconciliation rules leaves a status that follows the number of enabled accounts |
| `PoolInvariant.NovelKeysFresh` | controller/channel_account.go:3776-3801 | The keys an import appends are nonblank, trimmed, pairwise distinct and not among the trimmed existing keys |
| `PoolInvariant.CanRestoreIsNew` | controller/channel_account.go:2744-2861 | A restore goes ahead only for a nonblank credential the target channel does not hold yet |
| `PoolInvariant.EditedCredentialTrimmed` | controller/channel_account.go:3687-3717 | A nonblank edited credential that is accepted by normalisation is stored nonblank and trimmed |
| `PoolAccounts.SwitchManyView` | controller/channel_account.go:4311-4361 | After a status update every listed account has exactly the new status, reason and time, and every other account keeps all seven of its values |
| `PoolAccounts.PauseThenResume` | controller/channel_balance_monitor.go:887-957 | For the accounts, resume undoes pause: the paused account ends enabled without reason or time, and no value of any other account changes |
| `PoolAccounts.PauseThenResumeStatusIff` | controller/channel_balance_monitor.go:887-957 | For the channel, pausing and resuming brings back the status if and only if it was enabled, or another account is enabled and the channel was not off merely for having none; on good channels, if and only if it was enabled or another account is |
| `PoolAccounts.BalanceReasonRecognised` | service/channel.go:381-384 | The reason that a pause writes is one that resume and clear recognise as a balance pause |
| `PoolAccounts.ImportView` | controller/channel_account.go:3749-3894 | Import appends exactly the novel keys; when the channel then has several accounts, every new one is manually disabled with the given or default limit, every account of a multi-key channel keeps all its values, and a sole account of a channel that was off is manually disabled under the channel's reason and keeps the rest |
| `PoolAccounts.ImportFirstView` | controller/channel_account.go:3849-3856 | The first account ever imported carries only its limit; the channel itself ends manually disabled without ability rows |
| `PoolAccounts.RestoreFirstView` | controller/channel_account.go:2794-2834 | The first account restored into an empty channel carries the archived values; the channel itself takes the mode's status and reason |
| `PoolAccounts.CredentialView` | controller/channel_account.go:3096-3181 | An edit changes exactly the credential, type and limit the form gives, of that account alone; the stored credential is the normalised text of the form, accepted and not held elsewhere; channel status and reason stay |
| `PoolAccounts.EditedKind` | controller/channel_account.go:3687-3717 | The recorded account type is a known one in normal form, or none for automatic detection |
| `PoolAccounts.ProxyView` | controller/channel_account.go:3249-3318 | Exactly the listed accounts get or lose the proxy, and nothing else of the channel changes |
| `PoolAccounts.ClearView` | controller/channel.go:1001-1072 | Exactly the accounts with a balance reason are enabled, and no value of any other account changes |
| `PoolAccounts.ClearTwice` | controller/channel.go:1001-1072 | After lifting the pauses none is left, and lifting again changes nothing |
| `PoolAccounts.RestoreView` | controller/channel_account.go:2744-2861 | Restore appends one account carrying the archived proxy, type and capability under the mode's status and reason, and changes no other account nor the channel status |
| `PoolAccounts.CleanKeepsView` | controller/channel_account.go:4371-4434 | Map cleanup does not change what any in-range account looks like |
| `PoolDeletion.SurvivorKeepsAccount` | controller/channel_account.go:4085-4218 | With at least two survivors, each keeps its key, effective status, reason, time, proxy, type, limit and capability at its renumbered position |
| `PoolDeletion.SurvivorsKeepStatusIff` | controller/channel_account.go:4170-4202 | All survivors keep their effective status if and only if there is not exactly one survivor or that one was enabled already |
| `PoolDeletion.CollapseView` | controller/channel_account.go:4170-4175 | A lone survivor keeps its key, proxy, type and capability, and loses its disabled status, reason, time and concurrency limit |
| `PoolDeletion.SurvivorsKeepAccountsIff` | controller/channel_account.go:4103-4175 | All survivors keep key and all seven values if and only if there is not exactly one survivor, or that one was enabled and had no reason, time or limit |
| `PoolDeletion.CollapseEnables` | controller/channel_account.go:4170-4202 | For every channel disabled automatically because all its keys were disabled: a deletion that leaves one account enables that account, the channel and its ability rows |
| `PoolDeletion.CollapseEnablesSurvivor` | controller/channel_account.go:4170-4202 | A concrete good channel with two manually disabled accounts that a deletion switches on |
| `PoolDeletion.DeleteTwice` | controller/channel_account.go:4085-4218 | Deleting a batch and then a renumbered batch, with two or more survivors, is the same as deleting the union once: same keys, maps, status, reason and times on every good channel, and equal up to the pause entry on any channel |
| `PoolDeletion.ImportThenDelete` | controller/channel_account.go:3749-3841 | For every good channel, deleting what an import appended gives back the same key list; every account of several has all its values back, and a sole account all but its reason, time and limit |
| `PoolDeletion.ImportThenDeleteIff` | controller/channel_account.go:4170-4175 | Keys and all values of all accounts come back if and only if there was not a sole account with a reason, a time or a limit |
| `PoolDeletion.UndoneSoleEnables` | controller/channel_account.go:3868-3887 | For every good channel with one account, whoever disabled it, importing and deleting again leaves the account, the channel and its ability rows enabled |
| `PoolDeletion.ImportThenDeleteEnablesSole` | controller/channel_account.go:3868-3887 | A concrete channel, disabled by hand and with a limit, that this switches on and that loses the limit |
| `PoolDeletion.ImportThenDeleteStatusIff` | controller/channel_account.go:4195-4202 | For every good channel the status comes back if and only if, with one account, it was enabled, and otherwise some account was enabled or the channel was already disabled automatically |
| `Seqs.Kept` | controller/channel_account.go:4111-4153 | The surviving positions: ascending, in range, exactly those not deleted |
| `Seqs.KeptTwice` | controller/channel_account.go:4111-4153 | Renumbering composes: the positions that survive two deletions are the positions that survive the union, named in the original numbering |
| `PoolAccess.ImportKeepsUsable` | controller/channel_account.go:3749-3894 | From every good channel, import leaves exactly the same set of usable credentials (enabled in an enabled channel) and never reports a restored channel |
| `PoolAccess.ImportRestoresIff` | controller/channel_account.go:4469-4474 | From any channel whatever, a successful import reports a restore if and only if the channel had two or more accounts, was disabled automatically for a blank or all-disabled reason, and yet some account was enabled, which no good channel is |
| `PoolAccess.ImportedStatus` | controller/channel_account.go:3843-3894 | When the channel ends enabled after growing, the enabled positions are those from before; and it ends enabled exactly if it was or if the restore condition held |
| `PoolAccess.RunKeepsAbility` | controller/channel_account.go:4220-4267 | Over every run without balance pauses and resumes the ability rows stay enabled exactly when the channel is |
| `PoolAccess.BalanceAbilityIff` | controller/channel_balance_monitor.go:887-957 | After a balance pause or resume the ability rows agree with the channel status if and only if the channel was enabled or disabled only for lack of accounts (or, for a pause, nothing else was enabled) |
| `PoolAccess.ManualDisableStays` | controller/channel_account.go:4341-4361 | A manually disabled multi-key channel stays so over every run of account status updates |
| `PoolAccess.DeleteKeepsManualIff` | controller/channel_account.go:4195-4202 | A deletion keeps a manual disable if and only if exactly one account survives or some survivor is enabled |
| `PoolAccess.ImportKeepsManualIff` | controller/channel_account.go:3843-3894 | A successful import keeps a manual disable if and only if it adds the first account and no other, or some of several accounts is enabled |
| `PoolAccess.BalanceKeepsManualIff` | controller/channel_balance_monitor.go:887-957 | A balance pause keeps a manual disable if and only if another account is enabled; a resume always keeps it |
| `PoolAccess.StepKeepsManualIff` | controller/channel_account.go:4311-4361 | For each of the nine kinds of step, a manual disable is replaced if and only if the state before it meets that step's condition: those above for deletion, import and pause; for a restore, an empty channel and re-authorisation; for a status update, a single-key channel that is enabled; never for edits, proxies, resumes and clears |
| `PoolAccess.RunKeepsManualIff` | controller/channel_account.go:4311-4361 | Over every run, the channel is disabled by hand throughout if and only if no step of the run meets that condition |
| `PoolOutcome.DeleteProceedsIff` | controller/channel_account.go:4085-4099 | A deletion goes ahead if and only if positions are given and all are in the list; otherwise nothing changes |
| `PoolOutcome.ImportProceedsIff` | controller/channel_account.go:3749-3804 | An import goes ahead if and only if the limit is not negative, every credential is accepted, some credential is not held yet, and either only new ones were asked for or none is held; otherwise nothing changes |
| `PoolOutcome.LineCredential` | controller/channel_account.go:3904-3941 | A line stands for its trimmed text, with an exported card shortened and then a JSON object compacted |
| `PoolOutcome.LinesAreRead` | controller/channel_account.go:3904-3941 | Reading lines distributes over concatenation, and each line gives no credential if blank and one otherwise |
| `PoolOutcome.NovelInOrder` | controller/channel_account.go:3789-3801 | New credentials are appended in the order in which the lines first name them |
| `PoolOutcome.RestoreProceedsIff` | controller/channel_account.go:2764-2776 | A restore goes ahead if and only if the trimmed credential is nonblank, accepted and not held; otherwise nothing changes |
| `PoolOutcome.StatusProceedsIff` | controller/channel_account.go:3183-3224 | A status update goes ahead if and only if the positions are in the list and, on a single-key channel, all are the first |
| `PoolOutcome.EditedTextIff` | controller/channel_account.go:3687-3717 | Exactly which texts each credential type allows; the compacted JSON form is stored whenever there is one and the type is not an API key, and the trimmed text otherwise |
| `PoolOutcome.CredentialProceedsIff` | controller/channel_account.go:3104-3170 | An edit goes ahead if and only if the position exists, something is to change, a given credential has the right form, is accepted and not held elsewhere, the environment may be used and the limit is not negative |
| `PoolOutcome.ProxyProceedsIff` | controller/channel_account.go:3249-3318 | A proxy change goes ahead if and only if the positions are in the list and a proxy that is bound may be used |
| `PoolOutcome.DeleteOutcome` | controller/channel_account.go:4188-4207 | Deletion disables a channel without an enabled survivor under the fixed reason, lifts a disable that was merely for that, leaves any other status and reason, and restarts the polling position when it is past the end |
| `PoolOutcome.ImportOutcome` | controller/channel_account.go:3843-3894 | Import into a good channel that then has several accounts keeps status and reason if one was enabled and falls back otherwise; the key mode is filled in only when it was empty |
| `PoolOutcome.RestoreOutcome` | controller/channel_account.go:2780-2810 | A restore leaves the status of a channel with accounts, and gives an empty one the mode's status, reason and time |
| `PoolOutcome.SwitchOutcome` | controller/channel_account.go:4335-4361 | Switching accounts moves a channel only between being on and being off for having none, and writes the ability rows only if the status moved |
| `PoolOutcome.SwitchSoleOutcome` | controller/channel_account.go:4287-4305 | Switching a sole account writes status, given or default reason and time on the channel, and the credential can serve exactly when it was enabled |
| `PoolOutcome.EditOutcome` | controller/channel_account.go:3171-3180 | An edit leaves status, reason, polling position and mode |
| `PoolOutcome.PauseOutcome` | controller/channel_balance_monitor.go:887-957 | A balance pause records status, reason and time on the one account; the channel falls back, is lifted or stays according to whether another account is enabled, which also decides the ability rows |
| `PoolOutcome.ResumeOutcome` | controller/channel_balance_monitor.go:887-957 | A resume changes something only for an account paused for its balance, and then exactly that account and a disable for having none |
| `PoolOutcome.ClearOutcome` | controller/channel.go:1001-1072 | Lifting pauses also lifts an automatic disable for having none or for the balance, with the ability rows; without a pause nothing changes |
| `PoolOutcome.BalanceReasonIff` | service/channel.go:381-384 | A reason counts as a balance pause if and only if, trimmed and in lower case, it is the fixed word, or the original text mentions the four characters anywhere |
| `PoolOutcome.OtherReports` | controller/channel_account.go:2844-2853 | Restores report one added account, edits one affected, proxy changes as many as distinct positions |
| `PoolService.StepServesIff` | controller/channel_account.go:3749-4361 | For each of the nine kinds of step from any good channel, exactly which credentials can serve afterwards, told from the channel before the step |
| `PoolService.RunNeverGrants` | controller/channel_account.go:3749-3894 | Over every run of imports, restores, proxy changes and balance pauses nothing can serve that could not before, and without pauses exactly the same credentials can |
| `PoolService.GoodServesIff` | controller/channel_account.go:4450-4467 | A good channel has a credential that can serve if and only if it is enabled |
| `PoolService.DeleteRemoves` | controller/channel_account.go:4103-4153 | Exactly the credentials at the listed positions leave, the others keep their order, and the report counts the distinct positions |
| `PoolService.DeleteUsable` | controller/channel_account.go:4170-4202 | Of several survivors those that could serve still can; a lone one can if the channel was on or off merely for having none |
| `PoolService.SwitchUsable` | controller/channel_account.go:4311-4361 | After switching, a credential can serve if and only if the channel is on or was off merely for having none, and its account is switched on or was on and not listed |
| `PoolService.RestoreUsable` | controller/channel_account.go:2744-2861 | A restore changes nothing about who can serve |
| `PoolService.PauseUsable` | controller/channel_balance_monitor.go:887-957 | After a balance pause the paused credential cannot serve and all others are as before |
| `PoolService.ResumeUsable` | controller/channel_balance_monitor.go:887-957 | A resume adds at most the paused credential, and does if the channel was on or off merely for having none |
| `PoolService.ClearUsable` | controller/channel.go:1001-1072 | After lifting pauses the paused and the enabled credentials serve, unless the channel is off for another reason |
| `PoolService.DeleteReports` | controller/channel_account.go:4210-4217 | A deletion reports a restored channel if and only if it could not serve and now can, and a disabled one the other way round |
| `PoolService.StatusReports` | controller/channel_account.go:3183-3224 | The same for a status update, which also reports the number of distinct positions |
| `PoolService.ImportReports` | controller/channel_account.go:3829-3840 | Added, already held and repeated credentials are counted exactly and add up to the nonblank lines; no restore is reported |
| `ChannelRecord.CleanupStatusMaps` | controller/channel_account.go:4371-4434 | The cleanup loops compute the specification `CleanMaps` for any iteration order of the maps |
| `ChannelRecord.EnabledCount` | controller/channel_account.go:4450-4467 | The counting loop returns the number of positions that are effectively enabled |
| `ChannelRecord.NormalizeIndexes` | controller/channel_account.go:3226-3243 | Answers the set of requested positions, or refuses when the list is empty or any position is out of range |
| `ChannelRecord.Renumber` | controller/channel_account.go:4103-4168 | One pass over the keys with a running new index yields the survivors' keys and every map pulled back along the survivor list |
| `ChannelRecord.NormalizeLines` | controller/channel_account.go:3904-3941 | Computes the first occurrences of the rewritten nonblank lines, their number and the number of duplicates |
| `ChannelRecord.CollectExisting` | controller/channel_account.go:3776-3783 | The set of trimmed nonblank keys already held |
| `ChannelRecord.PickNovel` | controller/channel_account.go:3789-3801 | The keys not yet held, or a refusal when an existing one is met outside only-new mode |
| `ChannelRecord.FindRejected` | controller/channel_account.go:3730-3747 | Finds out whether any credential fails the channel type's validation |
| `ChannelRecord.FindCredential` | controller/channel_account.go:2771-2776 | Finds out whether the trimmed credential is already in the key list |
| `ChannelRecord.FindOther` | controller/channel_account.go:3126-3133 | Finds out whether the trimmed credential is held at another position |
| `ChannelRecord.Record.DeleteAccounts` | controller/channel_account.go:4085-4218 | In place, the whole new channel and the report are those of `Delete`, including every refusal, whose invariants and laws are the rows above |
| `ChannelRecord.Record.ShrinkTo` | controller/channel_account.go:4100-4193 | In place, keys and maps become those of the survivors, and the single-survivor collapse drops the status maps |
| `ChannelRecord.Record.FollowAccounts` | controller/channel_account.go:4195-4202 | In place, only status and reason change, by the reconciliation rule proved to make the status follow the accounts |
| `ChannelRecord.Record.ImportAccounts` | controller/channel_account.go:3749-3841 | In place, the whole new channel and the report, including skipped and duplicate counts and every refusal, are those of `Import` |
| `ChannelRecord.Record.ReconcileAdded` | controller/channel_account.go:3843-3894 | In place, the whole new channel is that of the import fix-up |
| `ChannelRecord.Record.RestoreAccount` | controller/channel_account.go:2744-2861 | In place, the whole new channel and the report are those of `Restore`, or nothing changes |
| `ChannelRecord.Record.SwitchAccounts` | controller/channel_account.go:4311-4361 | In place, the multi-key status update, with its guard for manual disable |
| `ChannelRecord.Record.UpdateAccountsStatus` | controller/channel_account.go:3183-3224 | In place, the dispatch between single-key and multi-key updates, with every refusal |
| `ChannelRecord.Record.UpdateAccountCredential` | controller/channel_account.go:3096-3181 | In place, replaces one credential with its type and limit, or refuses and changes nothing |
| `ChannelRecord.Record.CheckCredential` | controller/channel_account.go:3687-3747 | Answers the normalised credential and type exactly when it is acceptable and not held elsewhere |
| `ChannelRecord.Record.UpdateAccountsProxy` | controller/channel_account.go:3249-3318 | In place, binds or unbinds the proxy for all listed positions and changes nothing but the maps |
| `ChannelRecord.Record.UpdateBalanceStatus` | controller/channel_balance_monitor.go:887-957 | In place, the balance pause or resume of one account with its status and ability write |
| `ChannelRecord.Record.ClearBalancePauses` | controller/channel.go:1001-1072 | In place, lifts every balance pause, counts them, and reports a status change exactly when there was one |
| `ChannelRecord.LiftPaused` | controller/channel.go:1001-1072 | For any iteration order of the reasons, exactly the balance-paused accounts are enabled and counted |
| `AccountArchive.RunConserves` | controller/channel_account.go:2541-2861 | Over every run of archive, restore and discard moves, the number of copies of each credential in live lists and both pools never drops, and is exactly conserved when no restore crashes between its two writes |
| `AccountArchive.ArchiveConserves` | controller/channel_account.go:2574-2621 | Archiving moves credentials: each one's total over live lists and pools is unchanged |
| `AccountArchive.RestoreConserves` | controller/channel_account.go:2744-2861 | Restore conserves each credential's total, except that a crash after the channel was saved leaves exactly one extra copy of the restored credential |
| `AccountArchive.DiscardConserves` | controller/channel_account.go:3021-3043 | Discarding moves a record between pools and conserves every total |
| `AccountArchive.RunKeepsLiveListsGood` | controller/channel_account.go:2541-2861 | Over every run, crashes included, every channel stays good, so no live list ever holds a duplicate |
| `AccountArchive.ArchiveThenRestore` | controller/channel_account.go:2661-2708 | Restoring what was archived succeeds and appends the same trimmed credential with the same proxy and capability, the same type if it had one, and no limit; among other accounts the account takes the mode's status and the channel stays as it was, alone the channel takes status and reason |
| `AccountArchive.ArchiveOutcome` | controller/channel_account.go:2574-2621 | An archive goes ahead if and only if the channel exists, the positions are in its list and their credentials are nonblank; then the accounts leave as if deleted, a record of each comes to the end of the named pool, and the other pool and other channels stay |
| `AccountArchive.RecordFields` | controller/channel_account.go:2686-2705 | A record names its channel and position, and holds the trimmed credential, reason and note and the given or inferred type |
| `AccountArchive.RestoreMoves` | controller/channel_account.go:2744-2861 | A restore goes to the requested channel, or to the one the account came from, appends the credential there, and takes exactly that row out of the invalid pool unless cut short; anything missing or refused changes nothing |
| `AccountArchive.DiscardMoves` | controller/channel_account.go:3021-3043 | Discarding moves exactly the named row, unchanged, to the end of the discarded pool |
| `AccountArchive.ArchivedComesBack` | controller/channel_account.go:2574-2861 | An account archived into the invalid pool and restored without naming a channel is back in its channel, with both pools and all other channels as before |
| `AccountArchive.RunKeepsNumbers` | controller/channel_account.go:2541-2861 | Over every run no two rows of a pool share a number |
| `AccountArchive.BuildRecords` | controller/channel_account.go:2661-2708 | The loop builds one record per chosen account in position order, or refuses if any of them is not registered |
| `AccountArchive.Tables.ArchiveAccounts` | controller/channel_account.go:2574-2621 | In place over the tables, records are inserted and accounts deleted together, or neither |
| `AccountArchive.Tables.RestoreAccount` | controller/channel_account.go:2744-2861 | In place over the tables, the channel is saved before the pool row is erased, with a crash possible between |
| `AccountArchive.Tables.DiscardAccount` | controller/channel_account.go:3021-3043 | In place over the tables, the record moves from the invalid to the discarded pool |
| `CodexEnvironment.CleanupKeepsLookupIff` | controller/channel_account.go:3521-3642 | Migrating from position keys to account keys leaves every account's environment as it was, for every iteration order, if and only if accounts with a blank account key have none and accounts sharing an account key without an entry agree on theirs |
| `CodexEnvironment.DistinctAccountsAreSafe` | controller/channel_account.go:3590-3642 | Nonblank, pairwise distinct account keys meet that condition |
| `CodexEnvironment.TwinsDisagree` | controller/channel_account.go:3590-3642 | Any two accounts that share an account key without an entry and disagree make the migration change some lookup |
| `CodexEnvironment.SharedKeyMigrationChanges` | controller/channel_account.go:3590-3642 | A concrete pair of credentials for which the migration changes a lookup, whatever the order |
| `CodexEnvironment.CleanupLookup` | controller/channel_account.go:3590-3642 | After cleanup a lookup is answered by the account-keyed map alone |
| `CodexEnvironment.CleanupIdempotent` | controller/channel_account.go:3590-3642 | Cleaning up twice, in any orders, is cleaning up once |
| `CodexEnvironment.DeleteKeepsEnvironments` | controller/channel_account.go:4100-4169 | Under the migration condition each survivor of a deletion keeps its environment at its new position |
| `CodexEnvironment.SurvivorKeepsMigrated` | controller/channel_account.go:4100-4169 | Without any condition, each survivor keeps the environment that the migration gave it |
| `CodexEnvironment.DeleteTwice` | controller/channel_account.go:4100-4169 | Deleting two batches leaves the same environments as deleting their union |
| `CodexEnvironment.SetThenLookup` | controller/channel_account.go:3539-3569 | Looking up a positive environment just set gives it back, for every account and order |
| `CodexEnvironment.SetReachesTwins` | controller/channel_account.go:3554-3563 | Accounts under the same account key share a positive environment set for one of them |
| `CodexEnvironment.SetKeepsOthers` | controller/channel_account.go:3539-3569 | Under the migration condition, setting or clearing one environment leaves the environment of every account with another account key |
| `CodexEnvironment.CleanupHolds` | controller/channel_account.go:3590-3642 | After cleanup no environment is keyed by position, and every entry is positive and belongs to an account in the list |
| `CodexEnvironment.DeletedIsForgotten` | controller/channel_account.go:4100-4169 | A deleted account whose credential comes back has no environment, unless an account that stayed has the same account key |
| `CodexEnvironment.ClearTakesEffectIff` | controller/channel_account.go:3539-3569 | Clearing an environment takes effect if and only if no other account with the same account key still has a position-keyed one |
| `CodexEnvironment.AccountKeys` | controller/channel_account.go:3590-3642 | Collects exactly the nonblank account keys of the channel |
| `CodexEnvironment.PruneEach` | controller/channel_account.go:3590-3642 | For any iteration order, keeps exactly the positive entries of accounts the channel still has |
| `CodexEnvironment.Mappings.CleanUp` | controller/channel_account.go:3590-3642 | In place, migrates and prunes, for the order in which the legacy map happened to be visited |
| `CodexEnvironment.Mappings.SetEnvironment` | controller/channel_account.go:3539-3569 | In place, sets or clears one account's environment and cleans up |
| `CodexEnvironment.Mappings.DeleteAccounts` | controller/channel_account.go:4100-4169 | In place, migrates before the keys are renumbered and prunes after |
| `RateLimiter.LimiterRefinesWindowIff` | common/rate-limit.go:28-70 | The bounded queue with its sweeper decides every request of every run of a nondecreasing clock as a full-history sliding window would, if and only if every key's duration is at most one second more than the expiration |
| `RateLimiter.LimiterRefinesWindow` | common/rate-limit.go:28-70 | Under that condition, after any run of requests on any keys and sweeps, a request is accepted exactly when fewer than the maximum earlier acceptances of its key are younger than the duration |
| `RateLimiter.SweptBurstDecidesDifferently` | common/rate-limit.go:28-42 | For every key whose duration is longer, a burst, a sweep and one more request on which limiter and window disagree |
| `RateLimiter.AcceptedIsHistory` | common/rate-limit.go:45-70 | The acceptances of a whole run are those of the full-history window, in order |
| `RateLimiter.NoWindowOverfull` | common/rate-limit.go:45-70 | No half-open window of the duration's length holds more acceptances of a key than its maximum (a maximum of zero counts as one) |
| `RateLimiter.Limiter.Request` | common/rate-limit.go:45-70 | In place, the queue of the key alone changes, as `Serve` says, and the answer is its decision |
| `RateLimiter.Limiter.ClearExpired` | common/rate-limit.go:28-42 | In place, for any iteration order, exactly the keys whose newest entry is older than the expiration go |
| `VerificationCode.LazyExpiryInvisible` | common/verification.go:35-72 | After every run of registrations, deletions and verifications of a nondecreasing clock, verification answers as a ledger that never sweeps |
| `VerificationCode.ValidIff` | common/verification.go:47-56 | A code is valid if and only if fewer than its minutes have passed, to the nanosecond |
| `VerificationCode.TagsSeparate` | common/verification.go:16-19 | Entries of the two purposes never collide: stored keys are equal exactly when purpose and key are |
| `VerificationCode.RunBounds` | common/verification.go:35-72 | Over every run the store is within its size bound, or all it holds was unexpired when the last registration swept |
| `VerificationCode.CodeStore.RemoveExpiredPairs` | common/verification.go:65-72 | In place, for any iteration order, exactly the expired entries go |
| `VerificationCode.CodeStore.RegisterCode` | common/verification.go:35-45 | In place, the entry is written and an oversized store is swept |
| `VerificationCode.CodeStore.VerifyCode` | common/verification.go:47-56 | True exactly for the registered code of that purpose and key before it expires; nothing changes |
| `VerificationCode.CodeStore.DeleteCode` | common/verification.go:58-63 | In place, only that purpose's entry for the key goes |
| `OggScanner.ScanStream` | common/audio.go:196-254 | On any concatenation of well-formed pages (section 6 of RFC 3533), with stray bytes before each page and at the end in which no page mark starts, the scan yields the maximum of the start value and all signed granule positions |
| `OggScanner.Largest` | common/audio.go:228-232 | The reference maximum: an upper bound on all granule positions that is attained |
| `OggScanner.GapsDoNotMatter` | common/audio.go:219-226 | Such stray bytes anywhere do not change the result |
| `OggScanner.ScanCutStream` | common/audio.go:207-249 | Of a file that is cut off inside a page, that page counts if and only if its header is complete |
| `OggScanner.DecodeEncode` | common/audio.go:228-229 | Little-endian decoding inverts encoding for every value that fits |
| `OggScanner.OpusGranules` | common/audio.go:204-249 | The offset loop terminates on every file and computes the recursive scan |
| `OggScanner.PageSize` | common/audio.go:241-245 | The segment table loop adds up the lacing values |
| `OggScanner.OpusDuration` | common/audio.go:251-253 | The duration in seconds times 48000 is the largest granule position found |
| `BodyStorage.RunsAlike` | common/body_storage.go:47-238 | Every run of nonempty reads, seeks, whole-body reads, size queries and closes gets the same answers from memory and from disk and ends at the same position |
| `BodyStorage.ReadAlikeIff` | common/body_storage.go:47-54 | On open storages in the same state a single read answers alike if and only if the buffer is nonempty or the position is before the end |
| `BodyStorage.DiskBytesWhole` | common/body_storage.go:198-230 | Reading the whole file in its steps yields the full content and puts the position back |
| `BodyStorage.DiskClosedForGood` | common/body_storage.go:169-238 | After the first close, over every run, everything on disk but the size query and a repeated close fails and nothing changes |
| `BodyStorage.MemoryClosedForGood` | common/body_storage.go:47-89 | The same in memory, for empty reads too |
| `BodyStorage.ReadsDeliver` | common/body_storage.go:47-54 | Over every run of nonempty reads of any sizes, the bytes from the position on are delivered once each and in order, as far as asked for |
| `BodyStorage.DiskReadsDeliver` | common/body_storage.go:169-176 | The same on disk |
| `BodyStorage.EndIff` | common/body_storage.go:47-54 | A nonempty read reports the end if and only if nothing is left |
| `BodyStorage.SeekLands` | common/body_storage.go:56-63 | A seek lands at the offset from the start, the position or the end, or fails and moves nothing |
| `BodyCache.RunKeepsExact` | common/body_storage.go:241-303 | After every run of creations, receptions and uses of storages, the memory and disk counters are the number and total size of the open storages of each kind |
| `BodyCache.ReceiveStores` | common/body_storage.go:262-303 | A body from a reader is stored whole exactly when it is no longer than the maximum, on both routes, and otherwise nothing changes |
| `BodyCache.IntakeExactIff` | common/body_storage.go:132-167 | The length limit is exact if and only if the maximum is below the largest 64-bit integer or the body is empty, because the reader is limited to one byte more |
| `BodyCache.RunKeepsQuota` | common/disk_cache_config.go:170-177 | Over every run of bodies made from byte slices for which quota and length add up in 64 bits, disk usage stays within the configured maximum |
| `BodyCache.RunKeepsQuotaIff` | common/disk_cache_config.go:170-177 | Over every run of byte slices of any length, the bytes on disk stay within the maximum throughout if and only if no body goes to disk whose admission test wraps around |
| `BodyCache.StreamKeepsQuotaIff` | common/body_storage.go:262-303 | A body streamed to disk keeps usage within the maximum for every body if and only if the maximum body length itself still fits, whatever length was announced |
| `BodyCache.CreateRouteIff` | common/body_storage.go:241-260 | A slice goes to disk if and only if the cache is on, the slice reaches the threshold, the quota has room and the file can be written; no hit is counted |
| `BodyCache.ReceiveRouteIff` | common/body_storage.go:262-303 | A body is streamed if and only if its announced length qualifies, and fails then if the file cannot be written; otherwise its real length decides, and one hit of the kind used is counted |
| `BodyObjects.CreateBodyStorage` | common/body_storage.go:241-260 | Creates a disk storage exactly when the body qualifies and the file can be written, otherwise a memory storage, holding the data from its start, and counts it |
| `BodyObjects.Counters.DecrementDiskFiles` | common/disk_cache_config.go:115-123 | In place, both disk counters go down and stop at zero |
| `BodyObjects.MemoryStorage.constructor` | common/body_storage.go:37-45 | Holds the data at position zero and counts it |
| `BodyObjects.MemoryStorage.ReadBytes` | common/body_storage.go:47-54 | In place, only the position moves, as the specified read |
| `BodyObjects.MemoryStorage.SeekTo` | common/body_storage.go:56-63 | In place, only the position moves, as the specified seek |
| `BodyObjects.MemoryStorage.CloseStorage` | common/body_storage.go:65-72 | In place, closes once and gives the memory back to the counters once |
| `BodyObjects.MemoryStorage.AllBytes` | common/body_storage.go:74-81 | The whole body, or the closed error; nothing changes |
| `BodyObjects.DiskStorage.constructor` | common/body_storage.go:100-130 | Writes the data, rewinds and counts it |
| `BodyObjects.DiskStorage.ReadBytes` | common/body_storage.go:169-176 | In place, only the file position moves, as the specified read |
| `BodyObjects.DiskStorage.SeekTo` | common/body_storage.go:178-185 | In place, only the file position moves, as the specified seek |
| `BodyObjects.DiskStorage.CloseStorage` | common/body_storage.go:187-196 | In place, closes once, removes the file once and gives its size back to the counters once |
| `BodyObjects.DiskStorage.AllBytes` | common/body_storage.go:198-230 | The sequence of seeks and reads answers as specified, proved above to be the whole body with the position put back |
| `ListText.ParseJoinIff` | model/channel.go:215-216 | For the reading by separator alone: joining a list, storing the text and splitting it again gives the list back if and only if no item holds the separator and the first and last items of a nonempty list are nonempty |
| `ListText.KeysTextIff` | model/channel.go:195-217 | With the branch that reads a JSON array: account keys come back if and only if they do as lines and the trimmed text does not both start with a bracket and read as an array |
| `ListText.BracketedKeyIsLost` | model/channel.go:202-213 | A key that survives as a line but comes back as the element of an array |
| `ListText.JoinSplit` | model/channel.go:215-216 | Joining what a text splits into gives the text back, for every text |
| `UpstreamModels.ConvergesIff` | controller/channel_upstream_update.go:781-829 | Checking, applying everything pending and checking again leaves no removal, and leaves no addition if and only if models hidden by an ignore entry stay hidden once the applied names leave the ignore list |
| `UpstreamModels.Converges` | controller/channel_upstream_update.go:781-829 | When no upstream name starts with the pattern prefix, nothing is pending afterwards |
| `UpstreamModels.RegexNamedModel` | controller/channel_upstream_update.go:176-235 | For every pattern entry that is itself an upstream name, hides another and not itself, the second detection finds something |
| `UpstreamModels.RegexNamedModelDoesNotConverge` | controller/channel_upstream_update.go:176-235 | A concrete ledger that does not converge |
| `UpstreamModels.PendingDisjoint` | controller/channel_upstream_update.go:176-235 | Pending additions and removals never share a name |
| `UpstreamModels.PendingNames` | controller/channel_upstream_update.go:176-235 | Both pending lists as set expressions of local, upstream, mapped and ignored names |
| `UpstreamModels.ApplyIsExact` | controller/channel_upstream_update.go:781-829 | Models become listed plus added minus removed; selections outside the pending lists have no effect; every pending addition is added, ignored or remains, disjointly; every removal is removed or remains; what is both added and ignored ends not ignored |
| `UpstreamModels.ApplyKeepsOrder` | controller/channel_upstream_update.go:142-147 | Remaining models keep their order and additions follow in theirs |
| `UpstreamModels.AutoSyncConverges` | controller/channel_upstream_update.go:366-408 | After a check with automatic sync, checking again against the same list finds no addition |
| `UpstreamModels.CheckIsExact` | controller/channel_upstream_update.go:366-408 | A check records exactly the offered names not listed, redirected to or ignored, and the listed names not offered nor redirected from; with automatic sync the former join the models after those listed; a failed fetch records only its time |
| `UpstreamModels.ApplyChangesIff` | controller/channel_upstream_update.go:781-829 | The models count as changed if and only if an addition was not listed or a removal was |
| `UpstreamModels.Normalize` | controller/channel_upstream_update.go:97-102 | Trimmed, nonblank, pairwise distinct names; a list that is so already is unchanged |
| `UpstreamModels.NormalizeKeeps` | controller/channel_upstream_update.go:97-102 | Exactly the trimmed nonblank names of the list are kept |
| `UpstreamModels.NormalizePrefix` | controller/channel_upstream_update.go:97-102 | They come in the order of their first occurrence |
| `UpstreamModels.Merge` | controller/channel_upstream_update.go:104-118 | A normal list with exactly the names of both |
| `UpstreamModels.Subtract` | controller/channel_upstream_update.go:120-129 | A normal list with exactly the names of the first that the second lacks |
| `UpstreamModels.Intersect` | controller/channel_upstream_update.go:131-140 | A normal list with exactly the common names |
| `UpstreamModels.ApplySelected` | controller/channel_upstream_update.go:142-147 | A normal list of origin and added names, without the removed ones that are not also added |
| `UpstreamModels.ModelsTextIff` | model/channel.go:364-369 | A normal model list survives storage as comma-separated text if and only if no name holds a comma |
| `UpstreamModels.NormalizeNames` | controller/channel_upstream_update.go:97-102 | The loop with its seen set computes the specification |
| `UpstreamModels.MergeNames` | controller/channel_upstream_update.go:104-118 | The loop computes the specified ordered union |
| `UpstreamModels.SubtractNames` | controller/channel_upstream_update.go:120-129 | The loop computes the specified ordered difference |
| `UpstreamModels.IntersectNames` | controller/channel_upstream_update.go:131-140 | The loop computes the specified ordered intersection |
| `UpstreamModels.CollectPending` | controller/channel_upstream_update.go:176-235 | The loops compute both pending lists |
| `UpstreamModels.FindIgnored` | controller/channel_upstream_update.go:214-220 | Finds out whether any ignore entry, exact or pattern, covers a name |
| `UpstreamModels.LedgerRecord.CheckUpstream` | controller/channel_upstream_update.go:366-408 | In place, a check detects and, with automatic sync, merges; a failed fetch records only the time of the check |
| `UpstreamModels.LedgerRecord.ApplyUpdates` | controller/channel_upstream_update.go:781-829 | In place, the whole new ledger and what was added and removed are those of `Apply` |
| `UsageWindow.ChannelMeanNear` | controller/channel_account.go:2075-2110 | For any number of accounts, each channel mean is within 0.0001 of the exact request-weighted mean, weighted by requests |
| `UsageWindow.OverallMeanNear` | controller/channel_account.go:1643-1657 | For any number of channels and accounts, each overall mean is within 0.00015 of the exact one, weighted by requests |
| `UsageWindow.NearMean` | controller/channel_account.go:2444-2477 | With at least one request, that nearness bounds the difference of the means themselves |
| `UsageWindow.ReportedMeansNear` | controller/channel_account.go:2075-2110 | With any request at all, the reported channel mean differs from the exact mean by at most 0.0001 and the overall mean by at most 0.00015 |
| `UsageWindow.OverallCountsExact` | controller/channel_account.go:2444-2492 | Requests, successes, errors, timeouts and tokens add exactly over all channels, and the three rates are those of the sums up to one rounding |
| `UsageWindow.ChannelCostDrift` | controller/channel_account.go:2444-2492 | Costs, which are rounded per account and added, drift from the exact sum by at most half a unit in the fourth place per account and one more |
| `UsageWindow.OverallLeads` | controller/channel_account.go:2444-2492 | The overall window has the latest activity of any account, and a leading error category whose count no account exceeds and some account has |
| `UsageWindow.Round` | controller/channel_account.go:2534-2539 | Rounding to four places moves a value by at most 0.00005 |
| `UsageWindow.SummarizeChannel` | controller/channel_account.go:2075-2110 | The accumulating loop computes the finalised fold of the finalised windows |
| `UsageWindow.SummarizeAll` | controller/channel_account.go:1643-1657 | The accumulating loop computes the finalised fold of the channel summaries |
| `CostProfile.BetterIsTotalOrder` | controller/channel.go:272-283 | The comparison is irreflexive, asymmetric and transitive, and total on profiles with distinct ids |
| `CostProfile.DisplayProfiles` | controller/channel.go:251-260 | The fold leaves, for exactly the channels with an effective profile, one that no effective profile of the channel beats |
| `CostProfile.MonitorProfiles` | controller/channel_balance_monitor.go:466-476 | The separately written fold meets the same specification |
| `CostProfile.SelectionIsUnique` | controller/channel.go:251-260 | For distinct ids, any two selections over any two permutations of the rows are equal, so both folds agree and row order does not matter |
| `CostProfile.SelectedIsLatest` | controller/channel.go:272-283 | The selected profile has the latest effective time of its channel's applicable rows, then the highest version, the latest update and the highest id |
| `AuthRecovery.SyncAuthRecovery` | controller/channel_account.go:2907-2995 | Scanned counts every key; every match is skipped, queued, found queued or failed; the first eligible accounts are attempted up to the clamped limit, and each outcome counts exactly the attempts the queue answered so; the two skip reasons are counted exactly |

## Left out

- HTTP handlers, JSON responses, sessions, logging, notifications and OAuth flows: plumbing without state of its own.
- Upstream balance fetchers, channel tests and capability probes: network clients.
- Database queries, Redis and cache refreshes: only the saved channel, atomic transactions and the ability flag are kept; a failing database is not modelled, apart from a crash between the two writes of a restore.
- The multi-key management endpoint and key replacement by channel update: they do not reconcile the status or renumber all maps, so they are not steps of the run invariant.
- Proxy-usage rows: a deletion does not renumber them, so nothing is claimed about them.
- The interleavings inside a balance step, which reads the channel before taking the lock: it is one atomic step here.
- Archiving a request over several channels: each channel's archive is one move of a run.
- The Codex environment maps live in their own module, not in the channel of the run invariant; the automatic assignment of a free environment is not modelled.
- JSON credentials, capability snapshots, account fingerprints and type inference, regular expressions: parameters of the model (`Codec`, `Identity`, `Rules`), restricted only to what serialised JSON guarantees, that rewritten credentials are nonblank and trimmed.
- Splitting an import text into lines and reading a JSON list of credentials: the model starts from the lines.
- Keys and models are sequences in the pool; `ListText` gives the condition under which the stored text stands for the list. The JSON array reader is a parameter that yields elements shorter than the array; the cached key list of a loaded channel is not modelled.
- A nil map and an empty map are the same value.
- Lower case is exact for characters whose lower case is ASCII; other characters are left alone, since they are only compared with ASCII words or uncased text.
- The minimum interval between two unforced upstream checks: it only skips a check.
- The clock is a parameter of each step, nondecreasing where a row says so; time zones and monotonic readings are not modelled.
- Floating point: usage windows and durations are over real numbers.
- Fixed-width integers: 64-bit wrap-around is modelled for the reader limit and the disk quota test only; the conversion of the configured megabytes to bytes does not wrap.
- Input errors: short reads, failing seeks on an open file, and the seek modes for data and holes.
- Cleaning up old cache files and resetting or resynchronising the disk counters: they can count a file's removal twice, so exact accounting is stated without them.
- The Opus pre-skip (section 4.2 of RFC 7845): the code does not subtract it, and only the largest granule position is claimed; other audio formats are not modelled.
- BodyCache.RunKeepsQuota: assumes that quota plus length fits in 64 bits; `RunKeepsQuotaIff` states the law without that, up to the first body that wraps the test, after which the usage counter of the model does not wrap.
- AccountArchive.ArchiveThenRestore: does not state a round trip of the concurrency limit, which is not archived, and assumes that stored snapshots parse back.
- UsageWindow.ChannelCostDrift: an upper bound that grows with the number of accounts, because costs are added after rounding.
- Request reconciliation, score explanations, sorting, filtering and paging of account lists: read-only views that change no state.
