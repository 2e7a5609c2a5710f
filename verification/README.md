# Verdant: its optimistic protocols, modelled and proved

Verdant keeps its state in one append-only log and two small action tables. Every
writer reads a snapshot, decides outside any lock, submits one guarded ticket that
commits whole or not at all, and reconciles by operation identity. This project
models those writers and readers and proves what they keep in every run, with any
number of contenders between a preparation and its commit.

| files | what they model |
|---|---|
| `GuardedStore`, `Snapshot`, `Wrappers`, `Tokens`, `TextOrder` | the guarded atomic submission with its receipts; the "row count and every captured row" guard; validated texts |
| `Framing`, `Descriptor`, `DescriptorFields` | length framing; percent escapes, UTF-8 and `key=value` descriptors |
| `EffectiveConfig`, `ConfigRoundTrip`, `ConfigLimits` | resolution and nested decoding of configurations, and the labels they lose |
| `AcceptRecords`, `Acceptance`, `Activation`, `ChainSafety`, `ActivationSafety`, `Handoff` | the accepted and active chains, their validating readers, and the handoff barrier |
| `AccessRecords`, `AccessState`, `AccessGate`, `AccessSafety`, `AccessDelegation`, `AccessStore`, `BindingAuthority` | credentials as a fold over admission rows; carrying an authorisation to another writer's commit |
| `Actors`, `Bindings`, `BindingRecords`, `Registry`, `RegistryRuns`, `RegistrySafety`, `RegistryLimits`, `BindingRegistries` | the event-sourced binding registry, as runs over values and as the mutable object it is |
| `ActionDb`, `ActionHandoff`, `ActionRuns`, `ActionSafety`, `ActionJournal`, `ActionScans`, `Custody`, `Peer` | admission, permits, lifecycle, rate, transfer, scans, scope holds and the peer's command slots |
| `Intents`, `Drafts` | the API's intent journal, stored as framed rows |

## How it is modelled

- A text is a sequence of UTF-8 bytes, one `char` below 256 each; units, modes and
  display names are such texts. Numbers carry the source's widths as explicit bounds.
- The store is a value and a run is a sequence of steps. A step names the earlier
  moments (prefix lengths of the log, or row counts) at which its preparation read,
  so stale and non-atomic reads are part of every run. A step whose preparation
  refuses writes nothing, so every sequence of steps is a run, and a theorem about
  `After(steps)` is a theorem about every reachable store.
- `Judge` is the storage contract: a receipt under the operation decides alone when
  there is one; otherwise the guard decides whether body and receipt are written
  together. A lost reply changes nothing in the store; a retry is the same ticket again.
- Guard conjuncts owned by another component (seal rows, the access guard as seen by
  acceptance and by intents) enter a step as a truth value, so the theorems hold
  whatever those components answer. `BindingAuthority` then proves what the access
  conjunct means.
- Clocks are parameters of the steps and need not be monotone. The one assumption is
  that within one admission batch the insert stamp is not before the guard stamp.
  A row's stamp is what SQLite's `strftime` can give: Julian day zero to the end of
  the year 9999. Every other clock is any 64-bit integer.
- `authorize_joined_*` is one step, as `src/action_joined.rs` declares that path to
  have a single writer; a crash may cut it after the durable mark.
- Code that updates fields or loops over a buffer is a class or a method proved
  against a function. In those classes `AtBoundary` stands for whatever other writers
  commit between reading and submitting: callers know of it only that rows and
  receipts are added and never removed.

## Where the code does not keep the property

Each of these has a lemma at a concrete input or run, and a condition that is proved
in both directions.

- A proposed mode is written into its row without percent escapes
  (`src/binding/writer.rs:204`). Replay equals what the rows meant if and only if no
  proposed mode holds `;` or `%` or is `-` (`RegistrySafety.ReplayRefinesExactly`).
  Replay stops short if and only if some mode cannot be read at all, which
  `BindingRecords.ModeIsRead` decides from the label alone
  (`RegistrySafety.ReplayCompletesExactly`); a log that stops short is never written
  to again. The mode `50%` stops the registry and `a;x=1` is replayed as `a`
  (`RegistryLimits.UnreadModeStopsTheRegistry`, `BrokenModeIsReplayedShort`).
- Registry points are keyed by `equipment:property` and identities may hold `:`, so
  two different points can share a key (`RegistrySafety.PointKeysCollide` says exactly
  which). A binding may then be held against another point's record, and retiring that
  record's equipment stops the binding exactly when the record is its own
  (`RegistryLimits.MatchedExactly`); a run proposes a point that was never recorded
  (`RegistryLimits.UnrecordedPointIsProposed`).
- A configuration's canonical binding text is split at byte 0x1F, which units and
  modes may contain; and the mode `-` means no mode. A configuration decodes to
  itself if and only if its labels avoid both (`ConfigRoundTrip.ResolvedReadsBackExactly`);
  both failures are resolved configurations (`ConfigLimits.LostLabelsAreResolved`).
- An admission is announced by every dispatcher that got past its receipt lookup
  before another one committed the same ticket. From a reachable moment on, however
  dispatchers proceed, an operation is announced at most once if and only if it has
  committed and its announcements together with the dispatchers still waiting to send
  its ticket are at most one (`ActionJournal.AnnouncedOnceExactly`). Two dispatchers
  past the lookup announce twice (`ActionJournal.TwoDispatchersAnnounceTwice`).
- The raw outstanding page clamps its limit, and a caller that steps by the limit it
  asked for sees every row once exactly when the limit is within `max_replay_rows` or
  all rows are (`ActionScans.LimitTilesExactly`); with a horizon of one, stepping by two
  skips the second of two rows (`ActionScans.SecondRowIsSkipped`), and a limit of zero
  gives one row a page and no step at all. `inspect_outstanding_bounded`
  (`src/action_custody/custody.rs:177-203`) clamps its own limit the same way and
  takes the offset from its caller, so the step is the caller's there too.

## Model

| member | source | states |
|---|---|---|
| Framing.Decode | src/accept/codec.rs:8-29 | The decoding loop computes the specification, faults in order |
| Framing.NumberReadsCanonicalDecimals | src/accept/codec.rs:30-36 | A number is read exactly from its canonical decimal, up to the type's maximum |
| Framing.DecodesExactlyEncodings | src/accept/codec.rs:5-36 | A text decodes to a field list if and only if it is that list's encoding within both limits, multi-byte boundaries included |
| Framing.EncodeInjective | src/accept/codec.rs:5-7 | Different field lists never share an encoding |
| Descriptor.EncodeLoop | src/binding/mod.rs:150-166 | The escaping loop computes the escape of every byte |
| Descriptor.DecodeLoop | src/binding/mod.rs:167-191 | The unescaping loop, with its truncated, bad-digit and UTF-8 refusals |
| Descriptor.SplitLoop | src/binding/mod.rs:246-267 | The splitting loop refuses a missing `=` and duplicate keys, else binds decoded values |
| Descriptor.EncodeReadsBack | src/access/mod.rs:626-679 | Every string escapes to a text that reads back as itself |
| Descriptor.DescriptorReadsBack | src/access/mod.rs:818-839 | Fields under distinct keys split back into exactly those fields and no others |
| Descriptor.SplitFindsPiece | src/binding/mod.rs:246-267 | A value written with semicolons of its own is bound to its first piece whenever the descriptor splits at all |
| Descriptor.SplitBetween | src/binding/mod.rs:246-267 | A text of any shape among readable fields: the whole splits exactly when the text splits on its own into keys the others do not have |
| Snapshot.GuardIsEquality | src/binding/authority.rs:33-40 | Count plus presence of every captured row holds exactly when nothing was added, removed or edited |
| EffectiveConfig.InsertIsMapUpdate | src/accept/effective.rs:186-208 | Inserting into the ordered entries keeps the order and changes exactly one lookup |
| EffectiveConfig.ApplyLayer | src/accept/effective.rs:193-209 | The per-source loop: duplicate, missing-domain-key and scope refusals, else the layered entries |
| EffectiveConfig.Resolve | src/accept/effective.rs:165-230 | Both layers, the emptiness and byte limits, and the facts taken from findings |
| EffectiveConfig.ReadEntries | src/accept/effective.rs:273-281 | The loop over stored entries refuses foreign scopes and repeated keys |
| EffectiveConfig.ReadFacts | src/accept/effective.rs:285-298 | The loop over stored facts collects every fact in order or refuses |
| ConfigRoundTrip.ResolutionMeans | src/accept/effective.rs:165-230 | Temporary intent wins for exactly the keys it names, the domain for all others, each tagged with its source |
| ConfigRoundTrip.CanonicalReadsBackExactly | src/binding/proposal.rs:252-277 | A binding's canonical text decodes to it if and only if its unit and mode are clean |
| ConfigRoundTrip.EntryReadsBackExactly | src/accept/effective.rs:66-115 | An entry's bytes decode to it exactly when its labels are clean |
| ConfigRoundTrip.WriterMakesFacts | src/binding/writer.rs:113-117 | Every finding the registry writes yields a fact of the shape the reader expects |
| ConfigRoundTrip.FactsFit | src/accept/effective.rs:226-228 | Facts within the 16,384 written bytes number fewer than the 256 the reader allows |
| ConfigRoundTrip.ResolvedIsOk | src/accept/effective.rs:165-230 | Every resolved configuration is within all limits of the decoder |
| ConfigRoundTrip.ConfigReadsBackExactly | src/accept/effective.rs:265-310 | A configuration within limits decodes to itself exactly when all its labels are clean |
| ConfigRoundTrip.ResolvedReadsBackExactly | src/accept/effective.rs:165-310 | Through both nestings: resolve, encode, decode is the identity exactly on clean labels |
| ConfigLimits.SplitUnitIsLost | src/binding/proposal.rs:252-277 | A valid unit with byte 0x1F makes the canonical text unreadable |
| ConfigLimits.DashModeIsLost | src/binding/proposal.rs:252-277 | The mode `-` shares its canonical text with no mode and reads back as none |
| ConfigLimits.LostLabelsAreResolved | src/accept/effective.rs:165-310 | Both labels pass resolution, and the configurations made of them do not decode to themselves |
| AcceptRecords.AcceptedReadsBack | src/accept/store.rs:344-356 | What the accepting writer stores is what the history reader accepts at that place |
| AcceptRecords.ActiveReadsBack | src/accept/activation.rs:315-324 | What the activating writer stores is what the activation reader accepts |
| Acceptance.ReadAcceptedHistory | src/accept/store.rs:287-341 | The validating loop over accepted rows |
| Acceptance.ReadActivationHistory | src/accept/activation.rs:271-312 | The validating loop over active rows joined with accepted ones |
| ActivationSafety.StepKeeps | src/accept/activation.rs:118-210 | One dispatch, whatever it read and whenever, leaves a log in which every row was legal when it committed |
| ActivationSafety.StaleReadsAreHarmless | src/accept/activation.rs:118-151 | Counts equal at commit pin both chains to what the stale, non-atomic reads saw |
| ActivationSafety.EveryRunIsLegal | src/accept/activation.rs:118-151 | Every row of every reachable log was legal at the instant it committed |
| ActivationSafety.ReadersNeverRefuse | src/accept/activation.rs:271-312 | Active rows read first and accepted rows later: both readers return their full chains, whatever commits between |
| ActivationSafety.ActivationsNameTheNewest | src/accept/activation.rs:232-251 | Each committed activation names the revision newest accepted at its commit, and revisions strictly increase |
| ActivationSafety.PointerBounds | src/accept/store.rs:195-214 | At every instant generation <= active revision <= accepted count <= 256 |
| ActivationSafety.PointerNeverGoesBack | src/accept/activation.rs:232-251 | Neither the counters nor the active pointer ever go back |
| Handoff.BarrierDecides | src/action_publication/publication.rs:188-258 | Exactly when a handoff passes and why it refuses, in every run; the readers never turn it down |
| Handoff.HandoffIsLinearizable | src/action_publication/publication.rs:188-244 | A handoff that passes had one instant during the call with last accepted = active = admitted revision and the admitted binding |
| Handoff.StableHandoffPasses | src/action_publication/publication.rs:188-244 | A publication that stays current throughout the call passes |
| AccessRecords.RowReadsBack | src/access/mod.rs:777-1030 | Every bootstrap, issue and revoke row reads back as itself |
| AccessState.Read | src/access/state.rs:16-88 | The reading loop: whole history or a refusal, with the horizon, kind, anchor and repeat checks |
| AccessSafety.CheckedExactly | src/access/state.rs:109-180 | A credential authenticates exactly when it holds its capability's newest key, unrevoked, in scope and unexpired |
| AccessSafety.GuardPinsHistory | src/access/state.rs:31-86 | A snapshot whose guard holds at commit is the current history, so its decision is the current decision |
| AccessSafety.EveryRunIsSound | src/access/gate.rs:19-278 | Every run of concurrent bootstrap, issue, rotate and revoke keeps the history readable and its chains in order |
| AccessSafety.GenerationsCountUp | src/access/gate.rs:217-265 | The i-th key of a capability has generation i+1, differs from all others, and is revoked unless it is the newest |
| AccessSafety.ReaderAcceptsEveryRun | src/access/state.rs:16-88 | The reader accepts the history of every run, exactly up to its row horizon |
| AccessSafety.OneKeyAuthenticates | src/access/state.rs:119-180 | At most one key per capability authenticates, whatever the scope or clock |
| AccessSafety.RevokedForever | src/access/state.rs:119-180 | A key revoked at one moment authenticates at no later moment |
| AccessDelegation.DelegationNarrows | src/access/context.rs:70-111 | Every granted capability lies within its granter's policy, at every generation of either |
| AccessDelegation.EverythingIsRooted | src/access/gate.rs:163-263 | By induction from bootstrap no capability reaches outside the bootstrap administrator's bounds |
| AccessStores.AccessStore.Prepared | src/access/gate.rs:163-216 | Preparation decides on the rows it read and writes nothing |
| AccessStores.AccessStore.Body | src/access/gate.rs:427-459 | The loop that renders a batch into the rows of one transaction |
| AccessStores.AccessStore.Submit | src/access/gate.rs:461-489 | A batch applies whole or not at all, only on the very rows it was prepared from, only before expiry |
| AccessStores.AppendTable | src/access/gate.rs:427-459 | Appending a batch to the history is appending its rendered rows to the table |
| BindingAuthority.Capture | src/binding/authority.rs:22-40 | The capturing loop builds the guard of the rows it read, and refuses a history past the horizon |
| BindingAuthority.CapturedGuardIsEquality | src/binding/authority.rs:33-40 | The captured guard holds of a table exactly when the table is the captured one |
| BindingAuthority.AuthorityHoldsAtCommit | src/binding/authority.rs:22-51 | With capture, authentication and commit at three moments, a commit under the guard and expiry clause would authenticate again, as the same actor, at commit |
| Bindings.PartsDecode | src/binding/history.rs:385-433 | Every field of a binding reads back; the mode is what its text parses to |
| BindingRecords.RowReadsBack | src/binding/registry.rs:147-323 | Every registry row without an unsafe mode reads back as itself with its revision |
| BindingRecords.ProposalReadsBackExactly | src/binding/writer.rs:202-207 | A proposal's mode survives storage if and only if it needs no escape and is not the dash |
| BindingRecords.ProposalReadsExactly | src/binding/history.rs:385-433 | A stored proposal reads if and only if its mode's label splits into parts that leave the other fields alone and starts with a mode; it is then the proposal with that mode |
| RegistrySafety.EveryRowWasLegal | src/binding/writer.rs:47-122 | Every row of every reachable log was legal against the replay of the rows before it |
| RegistrySafety.ReplayRefinesExactly | src/binding/history.rs:31-79 | Replay of a reachable log is what its rows meant if and only if every proposed mode is safe |
| RegistrySafety.ReplayCompletesExactly | src/binding/history.rs:31-79 | Replay of a reachable log is complete exactly when every proposed mode can be read, and differs from what the rows meant in nothing but modes |
| RegistrySafety.RevisionCounts | src/binding/registry.rs:492-495 | In every reachable log the replayed revision counts the replayed rows that are not findings, and a complete replay's sequence counts all rows |
| RegistrySafety.FlaggedExactly | src/binding/history.rs:81-102 | In every reachable log the replayed registry flags an identity exactly when it was recorded at an address that an earlier row retired |
| RegistrySafety.PointKeysCollide | src/binding/registry.rs:250-289 | Two points share a key exactly when they are one point or one identity continues into the other's property |
| RegistrySafety.PointKeysDoCollide | src/binding/registry.rs:259-260 | Valid identities that collide |
| RegistrySafety.UnsafeModeIsLost | src/binding/writer.rs:202-207 | A valid proposal whose row does not read back |
| RegistryLimits.MatchedExactly | src/binding/writer.rs:124-136 | A legal binding's record is its own point's or a colliding one; retiring the record's equipment stops the binding exactly in the first case |
| RegistryLimits.UnrecordedPointIsProposed | src/binding/writer.rs:124-136 | A run in which a proposal commits for a point never recorded |
| RegistryLimits.UnreadLogsAreStuck | src/binding/writer.rs:47-168 | A log whose replay is incomplete is never written to again, whatever is called |
| RegistryLimits.UnreadModeStopsTheRegistry | src/binding/writer.rs:202-207 | A run in which a valid proposal with the mode `50%` is the last row its registry ever has |
| RegistryLimits.BrokenModeIsReplayedShort | src/binding/writer.rs:202-207 | A run in which a valid proposal with the mode `a;x=1` is replayed with the mode `a` |
| BindingRegistries.Database.Submit | src/binding/writer.rs:148-168 | One guarded submission: receipt, row and identity together or nothing |
| BindingRegistries.BindingRegistry.Insert | src/binding/history.rs:81-217 | A believed row updates exactly the maps, sets and counters it concerns |
| BindingRegistries.BindingRegistry.Replay | src/binding/history.rs:31-79 | Clearing and refilling in place equals the replay of the durable rows, and captures them as the guard |
| BindingRegistries.BindingRegistry.WriteRecord | src/binding/writer.rs:138-147 | A written record is one row on the captured history; nothing is reserved on failure |
| BindingRegistries.BindingRegistry.Record | src/binding/registry.rs:165-184 | After a record the fields equal a full replay of the extended log; after a refusal they are unchanged |
| BindingRegistries.BindingRegistry.RecordEquipment | src/binding/registry.rs:147-184 | Equipment under a new identity, or the planned refusal with nothing written |
| BindingRegistries.BindingRegistry.RecordSpace | src/binding/registry.rs:186-216 | A space under a new identity, or the planned refusal |
| BindingRegistries.BindingRegistry.RecordSource | src/binding/registry.rs:218-248 | A source under a new identity, or the planned refusal |
| BindingRegistries.BindingRegistry.RecordPoint | src/binding/registry.rs:250-289 | A point under a new key, or the planned refusal |
| BindingRegistries.BindingRegistry.RetireEquipment | src/binding/registry.rs:291-323 | Retirement of recorded equipment with its address, or the planned refusal |
| BindingRegistries.BindingRegistry.SubmitProposal | src/binding/writer.rs:47-82 | A proposal commits only on the history it was resolved against; its receipt recovers without writing |
| BindingRegistries.BindingRegistry.EmitFinding | src/binding/writer.rs:91-122 | A finding commits only over a proposed, currently legal binding; its receipt recovers the cited finding |
| BindingRegistries.RecordRefines | src/binding/history.rs:31-79 | Replaying one more readable row is applying it to the replayed registry |
| ActionHandoff.WallIsAWindow | src/action_expiry/policy.rs:340-362 | The deadline wall is active exactly from the stamp up to, not including, the deadline after it |
| ActionRuns.AdmitKeeps | src/action_journal/identity.rs:213-262 | One admission keeps generations in order, the rate, and one receipt per row |
| ActionRuns.MarkKeeps | src/action_journal/mod.rs:566-595 | A lifecycle mark changes no row and no generation |
| ActionRuns.GrantMeans | src/action_joined.rs:120-287 | A granted handoff relied on an admitted row at the current generation, inside its wall, and carries its bits |
| ActionRuns.EveryRunIsOk | src/action_joined.rs:120-380 | Every run of admissions, handoffs and marks, with crashes, keeps rows, lifecycle and permits consistent |
| ActionSafety.AtMostOnePermit | src/action_joined.rs:368-380 | At most one permit per operation in any run, and permits of one target have strictly increasing generations |
| ActionSafety.PermitsMatchTheirRows | src/action_dispatch/mod.rs:458-661 | A SET permit was granted within five seconds of its row's stamp with the row's bits; NULL only for releases |
| ActionSafety.GenerationsAreComplete | src/action_journal/identity.rs:240-262 | A target's rows are its generations 1..current without gap or repeat |
| ActionSafety.RivalsDoNotBothCommit | src/action_journal/identity.rs:240-244 | Of rivals expecting one generation of a target at most one ever commits |
| ActionSafety.AdmissionIsExactlyOnce | src/action_journal/mod.rs:360-412 | Every committed operation is one row, and any further ticket under it, from the moment of its commit, changes nothing |
| ActionSafety.AdmittedExactly | src/action_journal/identity.rs:240-262 | In a reachable store a ticket commits if and only if its operation is new, its generation is current, and it is a release or finds fewer than six SETs in the hour |
| ActionSafety.SixSetsAnHour | src/action_journal/rate.rs:32-37 | However the clock moves, no closed hour of stamps holds more than six SET rows of a target |
| ActionSafety.ChainKeepsObligation | src/action_custody/custody.rs:252-297 | Along predecessor links generations strictly fall and the obligation is the original's, whatever the chain's length |
| ActionSafety.RowsNeverChange | src/action_journal/lifecycle.rs:116-137 | Later transfers and marks never change a row or its predecessor link |
| ActionJournal.Journal.Submit | src/action_journal/mod.rs:360-412 | A receipt is answered without writing or announcing; success means the durable row is identical to the ticket; a fresh success is queued or counted as refused once on each of the two queues |
| ActionJournal.AnnouncementsAreAccounted | src/action_journal/mod.rs:360-412 | An operation is announced exactly once per send that found its receipt, and once more if the committing send lived to announce |
| ActionJournal.AnnouncedOnceExactly | src/action_journal/mod.rs:360-412 | At any reachable moment, no continuation announces an operation twice if and only if it has committed and its announcements plus the dispatchers waiting with its ticket are at most one |
| ActionJournal.UncommittedCanDouble | src/action_journal/mod.rs:360-412 | Before an operation commits, two dispatchers can always both look and both announce it |
| ActionJournal.OneDispatcherAnnouncesOnce | src/action_journal/mod.rs:360-412 | With one dispatcher at a time per operation it is announced at most once |
| ActionJournal.TwoDispatchersAnnounceTwice | src/action_journal/mod.rs:360-412 | Two dispatchers past the lookup announce the same admission twice |
| ActionScans.OutstandingPage | src/action_journal/mod.rs:599-614 | The paging loop returns exactly the selected page, re-read row by row |
| ActionScans.CleanupPage | src/action_journal/lifecycle.rs:409-450 | The cleanup loop returns the selected page, rechecked row by row |
| ActionScans.OrderedIsInOrder | src/action_journal/lifecycle.rs:150-154 | The scan lists its rows in operation order |
| ActionScans.QueryMatchesRecheck | src/action_journal/lifecycle.rs:370-408 | The query's saturating cutoff and the recheck's checked difference agree on every stamp and clock |
| ActionScans.RecheckDropsNothing | src/action_journal/lifecycle.rs:409-450 | In a reachable store the recheck keeps every row the query kept |
| ActionScans.PagesTile | src/action_journal/mod.rs:599-614 | Pages stepped by the clamped bound neither skip nor repeat a row |
| ActionScans.StepTilesExactly | src/action_journal/mod.rs:599-614 | Pages stepped by any amount are the rows once each exactly when the step is the bound or the rows fit on one page and within one step |
| ActionScans.LimitTilesExactly | src/action_journal/mod.rs:599-614 | Stepping by the requested limit is exact just when the limit is within the horizon or all rows are |
| ActionScans.SecondRowIsSkipped | src/action_journal/mod.rs:599-614 | Two rows, a horizon of one and steps of two: the second row is never seen |
| ActionScans.NoYoungSetIsLost | src/action_journal/lifecycle.rs:370-446 | A SET row less than 900 seconds old occurs exactly once over all pages of exactly one scan: outstanding, or cleanup once terminal |
| Custody.ScopeHolds.HoldScope | src/action_custody/policy.rs:123-132 | After a hold no SET of that scope is authorised, whatever its row and readings, and handoffs of other scopes fare as before |
| Custody.ScopeHolds.ReleaseScope | src/action_custody/policy.rs:133-141 | After a release that scope's handoffs fare as if nothing were held, and those of other scopes as before |
| Custody.HeldScopeStops | src/action_custody/policy.rs:334-350 | A held scope lets no SET through, and a release only to its admitted original target |
| Custody.HoldsAreScoped | src/action_custody/policy.rs:157-173 | A handoff depends on holds only through its own scope |
| Peer.PeerTable.HandleWrite | src/action_dispatch/harness.rs:330-363 | A write overwrites slot eight with the decoded bits or relinquishes it, and no other slot |
| Peer.PeerTable.CurrentValue | src/action_dispatch/harness.rs:138-144 | The effective value is the first commanded slot, else the relinquish default |
| Peer.RealBytesReadBack | src/action_dispatch/mod.rs:348-355 | The bytes of a SET decode to the bits they were made from |
| Peer.RelinquishReveals | src/action_dispatch/harness.rs:138-144 | Relinquishing a slot gives the effective value of the others |
| Peer.PeerShowsOnlyAdmittedBits | src/action_dispatch/harness.rs:318-363 | Under any delivery order slot eight holds its start, the bits of an admitted SET row of the peer's own target, or nothing; other slots never change |
| Drafts.ReadLoop | src/api/journal.rs:104-122 | The reading loop over a scope's rows: every row decoded, or a refusal past 256 rows, on an unreadable row, a foreign scope or a repeated operation |
| Drafts.HistoryReads | src/api/journal.rs:104-122 | The rows of every legal log decode to the history they were written for |
| Drafts.EveryRunIsLegal | src/api/journal.rs:132-247 | Every remembered intent was legal against its scope's history when it committed |
| Drafts.DraftChainsAreLinear | src/api/operations.rs:154-190 | The draft and edits of a subject form one chain, each edit naming the immediately previous revision |
| Drafts.SealsFreeze | src/api/operations.rs:230-250 | At most one seal per subject; it names the last revision and nothing edits after it |
| Drafts.RepeatsReturnTheOriginal | src/api/journal.rs:132-175 | Reading never refuses; a repeated request finds the original; and no step under a used operation, with reads however stale, adds a row |
| Intents.IntentReadsBackExactly | src/api/journal.rs:61-101 | A stored text decodes to an intent if and only if it is that valid intent's encoding within the limit |

## Left out

- SQL and JSON quoting, subprocesses and SQLite itself: replaced by the guarded submission above.
- `src/storage`, `src/seal`, `src/native`, `src/semantics` and `src/observation` are not part of this model; a seal is an opaque text that staged rows carry.
- Hashes (FNV, SHA-256): a finding's digest and a key's fingerprint are parameters, and no theorem depends on collisions.
- Floating point (`EncodedSetpoint`, range and tolerance checks): a setpoint is its 32 wire bits.
- Error texts and codes; refusals are constructors, and several texts of one kind share one.
- Diagnostic reads after a lost compare-and-swap, which only choose among error values.
- `transition` called with the admitted state: only the `mark_*` callers are steps, because a write of admitted would grant a second permit.
- Raw `admit_with_predecessor`: predecessor links in the chain theorem are those that transfers write.
- Rows of older schemas and the upgrades that add their columns: every run starts from a fresh store of the current schema.
- The receivers that drain the two announcement queues.
- `replay_window`, bulk import and `propose_with_credential` are callers of what is modelled.
- API cancellation, dispatch checks and recovery: their intents are steps without draft semantics.
- Configuration differences (`impact_from`) and impact assessment: set comparisons with one branch each.
- Command line, sockets, capture, port rebinding and process orchestration.
- `action_manifest`, recovery decisions and the thin `*_via_*` wrappers.
- EffectiveConfig.Resolve: the environment check, the store-path comparison, the registry's replay and the reading of the bootstrap reason come before it; their results are its parameters.
- Handoff.HandoffIsLinearizable: the seal and custody gates of the same call are separate and do not take part in the instant it names.
- ActionJournal.Journal.Submit: durable rows and tickets are compared as values, so the re-read of a stored row cannot fail to decode.
- AccessStores.AccessStore.Submit: the earlier moment of preparation is a ghost argument, so a caller cannot submit a batch that no preparation made.
