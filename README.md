# Terminal registry and SFTP backfill, modelled in Dafny

This project models two parts of a bastion-host server.

The first part is the **terminal registry** (`apps/terminal/models/terminal.py`). A terminal is a registered gateway node. The model covers:

- its service account, its protocol set and its soft deletion;
- its liveness flag, a cache key with a time-to-live;
- the storage backends it writes command logs and session replays to;
- the merged runtime configuration handed to it;
- the status label of its string form;
- the views `undeleted`, `active` and `alive` over all terminals;
- the **protocol catalog**: builtin `(name, port)` rows, seeded by get-or-create, with the default protocols of each terminal type.

The second part is **data migration 0121** of the assets app (`apps/assets/migrations/0121_auto_20230725_1458.py`). It backfills an sftp protocol:

- for every linux platform whose ssh protocol has sftp enabled;
- then, for each asset without sftp on any platform that has an sftp protocol after the platform step (of any type), an sftp protocol copied from the asset's ssh protocol, in slices of 1000. Assets without ssh get none, and the loop as written misses assets (see "## Findings").

Modules:

- `Common` (`common.dfy`): Option/Result/Outcome; filtering, first-match search and Python's clamped slicing.
- `Liveness` (`liveness.dfy`): the liveness key and the expiring cache. Time is an explicit `now`. The cache is a map from key to expiry instant, held in the class `Cache`.
- `Storage` (`storage.dfy`): resolving a storage name to a backend config, with fallback.
- `ProtocolCatalog` (`protocols.dfy`): the protocol rows as values. Seeding is the function `Seed`. The class `ProtocolTable` holds the rows and reaches the same result step by step.
- `TerminalRegistry` (`terminal.dfy`): the classes `User`, `UserTable` and `Terminal`, the status rules, `config`, and the query views.
- `SftpBackfill` (`sftp_backfill.dfy`): the migration's tables as sequences of rows, in table order.
  - The dict dedup is `LastPerKey`, with the loop `DedupLastWins`.
  - `bulk_create(..., ignore_conflicts=True)` is `BulkCreate`.
  - The two asset loops, as written and corrected, are `AsWrittenFrom` and `BackfillFrom`.
  - The class `AssetDb` holds the four tables and runs the migration.

Two behaviours of the code the model keeps as they are:

- `delete` runs no transaction: it deletes the user, then saves the terminal.
- A get-or-create that meets a non-builtin row with the same `(name, port)` raises `IntegrityError`: its insert fails on the unique constraint, and the lookup retried after the failure misses again. The model returns `IntegrityError`, and the table is left as it was.

## Model

| member | source | states |
|---|---|---|
| Common.Slice | apps/assets/migrations/0121_auto_20230725_1458.py:57 | `s[lo:hi]` with both bounds clamped: empty when `lo` is past the end; otherwise length `min(hi, len) - lo`, and element `i` is `s[lo + i]` |
| Liveness.AliveKey | apps/terminal/models/terminal.py:21 | the key is `TERMINAL_ALIVE_` followed by the id, and nothing else |
| Liveness.AliveKeyInjective | apps/terminal/models/terminal.py:50 | two terminals share a liveness key iff they share an id |
| Liveness.CacheSet | apps/terminal/models/terminal.py:54-56 | setting a key adds exactly that key to the cache |
| Liveness.CacheGet | apps/terminal/models/terminal.py:52 | `cache.get(key, False)`: the flag reads true while the key is present and unexpired; `SetThenGet` and `AbsentOrExpiredIsFalse` state how it answers after a set and for an absent or expired key |
| Liveness.SetThenGet | apps/terminal/models/terminal.py:48-56 | after `set(key, ttl)` at `now`, the key reads true exactly at instants before `now + ttl`; every other key reads as before |
| Liveness.AbsentOrExpiredIsFalse | apps/terminal/models/terminal.py:52 | an absent key, or one whose expiry has passed, reads as the default `False` |
| Liveness.Cache.Set | apps/terminal/models/terminal.py:56 | the stored flag holds until `now + ttl`; other keys are untouched |
| Liveness.Cache.Get | apps/terminal/models/terminal.py:52 | `cache.get(key, False)` against the cache's expiry map: true while the key is stored and unexpired, false otherwise, as `CacheGet` states |
| Storage.FirstNamed | apps/terminal/models/terminal.py:63-66 | `filter(name=...).first()`: nothing iff no backend has the name; otherwise a backend with that name that no earlier backend shares |
| Storage.ResolveConfig | apps/terminal/models/terminal.py:63-74 | no backend has the name: the default config; otherwise the config of the first backend with that name |
| ProtocolCatalog.EntriesFor | apps/terminal/models/terminal.py:144-147 | one `{name, default_port, builtin: true}` entry per protocol kind, pointwise and in order |
| ProtocolCatalog.Unique | apps/terminal/models/terminal.py:132 | the `unique_together = ('name', 'port')` constraint: two rows with the same name and port are the same row |
| ProtocolCatalog.DefaultProtocolsData | apps/terminal/models/terminal.py:138-148 | an error (the failed assertion) iff the type is absent from the mapper; otherwise exactly one builtin entry per mapped protocol, in mapper order |
| ProtocolCatalog.InitialData | apps/terminal/models/terminal.py:155-161 | one builtin entry per protocol-name member; an entry is usable iff its member has a non-empty name and a non-zero port |
| ProtocolCatalog.Usable | apps/terminal/models/terminal.py:172-175 | the `all([name, port])` test: both keys present, the name non-empty and the port non-zero; `SeedReturnsOnePerUsableEntry` states that failing entries are skipped |
| ProtocolCatalog.Wanted | apps/terminal/models/terminal.py:176-178 | the builtin row get-or-create looks up for an entry, with its name and port; `RequestedMatchesEntries` states one per usable entry |
| ProtocolCatalog.Seed | apps/terminal/models/terminal.py:168-180 | get_or_create_protocols as a function of the table and the entries; `SeedShape`, `SeedFailsIffClash`, `SeedWhenPresent`, `SeedErrSticks` and `SeedIdempotent` state its outcome |
| ProtocolCatalog.Requested | apps/terminal/models/terminal.py:176-179 | every protocol a run requests is builtin |
| ProtocolCatalog.GetOrCreateStep | apps/terminal/models/terminal.py:176-178 | success returns the wanted builtin row, present afterwards; the table gains at most that row; an error iff the row is absent and another row holds its `(name, port)`, and then the error is `IntegrityError` for that pair and the table is unchanged |
| ProtocolCatalog.RequestedMatchesEntries | apps/terminal/models/terminal.py:171-179 | one builtin protocol per usable entry, in input order, each with that entry's name and port |
| ProtocolCatalog.SeedShape | apps/terminal/models/terminal.py:169-180 | a successful run returns the requested protocols; a run never removes a row and adds only requested ones |
| ProtocolCatalog.SeedReturnsOnePerUsableEntry | apps/terminal/models/terminal.py:171-179 | entries with a missing or falsy name or port are skipped; the result has one protocol per kept entry, in order, with its name, its port and `builtin` true |
| ProtocolCatalog.SeedKeepsUnique | apps/terminal/models/terminal.py:132 | seeding keeps the table unique on `(name, port)` |
| ProtocolCatalog.SeedFailsIffClash | apps/terminal/models/terminal.py:176-178 | a run fails iff some usable entry meets a non-builtin row with the same `(name, port)` |
| ProtocolCatalog.SeedWhenPresent | apps/terminal/models/terminal.py:176-178 | when every requested row is present, seeding succeeds and changes nothing |
| ProtocolCatalog.SeedAddsRequested | apps/terminal/models/terminal.py:169-180 | after a successful run the table is exactly the old rows plus the requested ones |
| ProtocolCatalog.SeedErrSticks | apps/terminal/models/terminal.py:171-178 | after the first failing creation, the remaining entries change nothing |
| ProtocolCatalog.SeedReturnedArePresent | apps/terminal/models/terminal.py:176-179 | every protocol a successful run returns is a row of the table afterwards |
| ProtocolCatalog.SeedIdempotent | apps/terminal/models/terminal.py:163-180 | a second run on the first run's table gives the same outcome and leaves the same table, whether the first run succeeded or failed |
| ProtocolCatalog.SeedKindsReturnsDefaultSet | apps/terminal/models/terminal.py:150-153 | seeding a type's default entries returns exactly the builtin rows of the type's protocols |
| ProtocolCatalog.ProtocolTable.GetOrCreate | apps/terminal/models/terminal.py:176-178 | the table and the result are those of `GetOrCreateStep`; uniqueness is kept |
| ProtocolCatalog.ProtocolTable.GetOrCreateProtocols | apps/terminal/models/terminal.py:168-180 | the loop leaves the table and returns the result of `Seed` on the old table, so every `Seed` lemma applies to it; uniqueness is kept |
| ProtocolCatalog.ProtocolTable.GetDefaultProtocols | apps/terminal/models/terminal.py:150-153 | an unsupported type changes nothing and fails; otherwise the table and result are those of seeding the type's entries |
| ProtocolCatalog.ProtocolTable.InitialToDb | apps/terminal/models/terminal.py:163-166 | the table and result are those of seeding the initial data |
| ProtocolCatalog.ProtocolTable.Valid | apps/terminal/models/terminal.py:132 | the table invariant: the stored rows satisfy `Unique`; every method of the table keeps it |
| TerminalRegistry.UserTable.Delete | apps/terminal/models/terminal.py:255 | the user no longer exists; every other user does |
| TerminalRegistry.StatusOf | apps/terminal/models/terminal.py:260-269 | the label chain of `__str__`; `StatusPriority` characterises each label by the facts and `StatusIsFirstMatchingRule` ties it to the rule order |
| TerminalRegistry.StatusIsFirstMatchingRule | apps/terminal/models/terminal.py:260-270 | the label is the first rule that holds, in the order NotAccept, Deleted, Disable, Offline; Active when none holds |
| TerminalRegistry.StatusPriority | apps/terminal/models/terminal.py:261-269 | each label, stated by the facts alone; for example an unaccepted deleted terminal is NotAccept |
| TerminalRegistry.LabelText | apps/terminal/models/terminal.py:260-270 | the text `__str__` prints for each status label: the label's own name (NotAccept, Deleted, Disable, Offline, Active) |
| TerminalRegistry.Terminal.constructor | apps/terminal/models/terminal.py:184-201 | a new record has type `koko`, ssh port 2222, http port 5000, storages `default`, is neither accepted nor deleted, and has no protocols |
| TerminalRegistry.Terminal.IsActive | apps/terminal/models/terminal.py:205-209 | the `is_active` property: a linked user that is active; `SetActive` states what it reads after the setter, and `ViewsMean` uses it for the active view |
| TerminalRegistry.Terminal.SetActive | apps/terminal/models/terminal.py:211-215 | only the linked user's flag changes; with no linked user nothing changes; afterwards `is_active` holds iff a user is linked and the new value is true |
| TerminalRegistry.Terminal.Delete | apps/terminal/models/terminal.py:253-258 | a previously linked user no longer exists; `user` is None; `is_deleted` is true; the record and its other fields remain |
| TerminalRegistry.Terminal.IsAlive | apps/terminal/models/terminal.py:48-52 | the `is_alive` property: the cache at the terminal's liveness key; `SetAlive` states it holds exactly until `now + ttl` |
| TerminalRegistry.Terminal.SetAlive | apps/terminal/models/terminal.py:54-56 | `is_alive` holds exactly until `now + ttl` (default 120); no other terminal's flag changes |
| TerminalRegistry.Terminal.StatusLabel | apps/terminal/models/terminal.py:260-270 | the label `__str__` shows for this terminal: `StatusOf` applied to its accepted, deleted, active and alive facts, so `StatusIsFirstMatchingRule` and `StatusPriority` apply to it |
| TerminalRegistry.Terminal.Str | apps/terminal/models/terminal.py:260-270 | the name, then `": "`, then the status label |
| TerminalRegistry.Terminal.CommandStorageConfig | apps/terminal/models/terminal.py:68-74 | the config of the first command storage named like the terminal's `command_storage`; with none of that name, the default command storage setting |
| TerminalRegistry.Terminal.ReplayStorageConfig | apps/terminal/models/terminal.py:85-91 | the config of the first replay storage named like the terminal's `replay_storage`; with none of that name, the default replay storage setting |
| TerminalRegistry.Terminal.CommandStorageSetting | apps/terminal/models/terminal.py:76-78 | the one-key dictionary `TERMINAL_COMMAND_STORAGE` with the resolved command storage config; `Config` states that key in the merged configuration |
| TerminalRegistry.Terminal.ReplayStorageSetting | apps/terminal/models/terminal.py:93-95 | the one-key dictionary `TERMINAL_REPLAY_STORAGE` with the resolved replay storage config; `Config` states that key in the merged configuration |
| TerminalRegistry.LoginTitleSetting | apps/terminal/models/terminal.py:224-227 | the one-key dictionary `TERMINAL_HEADER_TITLE` with the login title; `Config` states that key in the merged configuration |
| TerminalRegistry.ScanTerminalSettings | apps/terminal/models/terminal.py:231-235 | the scan keeps exactly the settings whose name starts with `TERMINAL`, each with its own value |
| TerminalRegistry.Terminal.Config | apps/terminal/models/terminal.py:229-243 | the keys are the TERMINAL* settings plus five named keys; the two storage keys hold the resolved configs; the header title, idle time and session share always hold the given values; every other TERMINAL* setting is copied unchanged |
| TerminalRegistry.Terminal.ResetProtocolsToDefault | apps/terminal/models/terminal.py:245-247 | on success the protocol set is exactly the type's default set, each of them in the catalog, replaced and not merged; an unsupported type or a failed creation leaves the set alone; the catalog becomes that of seeding; every other field of the terminal is unchanged |
| TerminalRegistry.Undeleted | apps/terminal/models/terminal.py:99-100 | the `undeleted` view; `ViewsMean` states its membership in both directions |
| TerminalRegistry.ActiveView | apps/terminal/models/terminal.py:102-103 | the `active` view; `ViewsMean` states its membership in both directions |
| TerminalRegistry.AliveView | apps/terminal/models/terminal.py:105-107 | the `alive` view, rebuilt from the ids of active alive terminals; `ViewsMean` and `ViewsNest` state its membership |
| TerminalRegistry.ViewsNest | apps/terminal/models/terminal.py:98-107 | alive ⊆ active ⊆ undeleted ⊆ all |
| TerminalRegistry.ViewsMean | apps/terminal/models/terminal.py:98-107 | undeleted means not deleted; active adds a linked active user; alive adds `is_alive`, in both directions |
| SftpBackfill.LastPerKey | apps/assets/migrations/0121_auto_20230725_1458.py:38-39 | the values of the dictionary comprehension; `LastPerKeyProps` states one value per key, every key kept, the last element winning |
| SftpBackfill.LastPerKeyLength | apps/assets/migrations/0121_auto_20230725_1458.py:38-39 | the dict has no more values than the list had elements |
| SftpBackfill.LastPerKeyDistinct | apps/assets/migrations/0121_auto_20230725_1458.py:38-39 | after dedup no two values share a key |
| SftpBackfill.LastPerKeyCovers | apps/assets/migrations/0121_auto_20230725_1458.py:38-39 | every key of the input is a key of the result |
| SftpBackfill.LastPerKeyLastWins | apps/assets/migrations/0121_auto_20230725_1458.py:38-39 | each value is the last element of the input with its key |
| SftpBackfill.LastPerKeyProps | apps/assets/migrations/0121_auto_20230725_1458.py:38-39 | the four dedup properties together |
| SftpBackfill.PlatformKey | apps/assets/migrations/0121_auto_20230725_1458.py:38 | the dictionary key of the platform step: the pair of protocol name and platform |
| SftpBackfill.DedupLastWins | apps/assets/migrations/0121_auto_20230725_1458.py:38-39 | building the dict step by step and taking its values gives `LastPerKey` |
| SftpBackfill.BulkCreate | apps/assets/migrations/0121_auto_20230725_1458.py:40 | the existing rows are kept unchanged and in place |
| SftpBackfill.BulkCreateInsertsFresh | apps/assets/migrations/0121_auto_20230725_1458.py:40 | every inserted row is one of the new rows and conflicts with no row before it |
| SftpBackfill.BulkCreateHandlesAll | apps/assets/migrations/0121_auto_20230725_1458.py:40 | every new row is inserted or conflicts with a row of the result; a conflicting row is dropped |
| SftpBackfill.BulkCreateOutcome | apps/assets/migrations/0121_auto_20230725_1458.py:67 | the three bulk-insert properties together |
| SftpBackfill.BulkCreateNoConflicts | apps/assets/migrations/0121_auto_20230725_1458.py:40 | with no conflicts all new rows are appended in order |
| SftpBackfill.SshCandidates | apps/assets/migrations/0121_auto_20230725_1458.py:9-12 | the `ssh_protocols` query: exactly the candidate rows of the table, in table order |
| SftpBackfill.IsSshCandidate | apps/assets/migrations/0121_auto_20230725_1458.py:9-12 | the row filter of `ssh_protocols`: named ssh, `sftp_enabled` set, name not Gateway or RemoteAppHost, on a linux platform |
| SftpBackfill.PlatformHasSftp | apps/assets/migrations/0121_auto_20230725_1458.py:13-19 | `protocol.platform in platforms_has_sftp`: the platform has some protocol named sftp |
| SftpBackfill.ExcludeRemovesNothing | apps/assets/migrations/0121_auto_20230725_1458.py:9-12 | a candidate is an ssh protocol with sftp enabled on a linux platform; the Gateway/RemoteAppHost exclusion removes nothing |
| SftpBackfill.SftpHome | apps/assets/migrations/0121_auto_20230725_1458.py:18-30 | `sftp_home` from the ssh setting; `/tmp` when the key or the whole setting is absent |
| SftpBackfill.SftpEntryFor | apps/assets/migrations/0121_auto_20230725_1458.py:22-34 | the new platform entry: named sftp, with the ssh row's port and platform, not primary, not required, default, public, and the `sftp_home` setting |
| SftpBackfill.NewEntries | apps/assets/migrations/0121_auto_20230725_1458.py:17-35 | each entry is named sftp, built from one ssh row with its port, not primary, not required, default, public, and carries its `sftp_home`; none is for a platform with sftp; every ssh row of a platform without sftp gets one |
| SftpBackfill.CollectSftpEntries | apps/assets/migrations/0121_auto_20230725_1458.py:17-35 | the loop appends exactly `NewEntries` |
| SftpBackfill.PlatformBackfill | apps/assets/migrations/0121_auto_20230725_1458.py:6-40 | the platform step: collect, dedup, insert; `PlatformBackfillShape`, `PlatformDedupOnePerPlatform` and `PlatformBackfillReachesTarget` state its result |
| SftpBackfill.PlatformBackfillShape | apps/assets/migrations/0121_auto_20230725_1458.py:6-40 | existing rows are kept; each new row is an sftp entry built from an ssh candidate, for a platform that had no sftp |
| SftpBackfill.PlatformDedupOnePerPlatform | apps/assets/migrations/0121_auto_20230725_1458.py:38-39 | at most one new entry per platform reaches the insert |
| SftpBackfill.CandidateEntryCollected | apps/assets/migrations/0121_auto_20230725_1458.py:17-35 | a candidate on a platform without sftp yields its entry |
| SftpBackfill.CandidateOffered | apps/assets/migrations/0121_auto_20230725_1458.py:17-39 | that platform still has an sftp entry after the dedup |
| SftpBackfill.OfferedEntryLands | apps/assets/migrations/0121_auto_20230725_1458.py:40 | an offered entry ends in the table, itself or through a conflicting sftp row of its platform |
| SftpBackfill.PlatformBackfillReachesTarget | apps/assets/migrations/0121_auto_20230725_1458.py:6-40 | afterwards every candidate platform has an sftp protocol |
| SftpBackfill.SftpPlatformIds | apps/assets/migrations/0121_auto_20230725_1458.py:47 | exactly the ids of platforms that have an sftp protocol |
| SftpBackfill.Pending | apps/assets/migrations/0121_auto_20230725_1458.py:51-55 | the `asset_ids` filter: the asset's platform is an sftp platform and the asset has no protocol named sftp |
| SftpBackfill.PendingIds | apps/assets/migrations/0121_auto_20230725_1458.py:51-55 | exactly the pending assets: every listed id is an asset on an sftp platform without sftp, and every such asset is listed |
| SftpBackfill.SshOf | apps/assets/migrations/0121_auto_20230725_1458.py:63 | the ssh query of one slice: exactly the ssh rows of the slice's assets, in table order |
| SftpBackfill.AssetKey | apps/assets/migrations/0121_auto_20230725_1458.py:64 | the dictionary key of `ssh_protocols_map`: the protocol's asset id |
| SftpBackfill.SftpFor | apps/assets/migrations/0121_auto_20230725_1458.py:66 | the new asset row: named sftp, with the ssh protocol's port and asset |
| SftpBackfill.BatchRows | apps/assets/migrations/0121_auto_20230725_1458.py:62-66 | the new rows of one slice; `BatchRowsCopied`, `BatchRowsOnePerAsset` and `BatchRowsCover` state them |
| SftpBackfill.BatchRowsCopied | apps/assets/migrations/0121_auto_20230725_1458.py:63-66 | each new row of a slice is an sftp row of an asset of the slice with the port of one of its ssh protocols, so an asset without ssh gets none |
| SftpBackfill.BatchRowsOnePerAsset | apps/assets/migrations/0121_auto_20230725_1458.py:64-66 | no asset gets two rows from one slice |
| SftpBackfill.BatchRowsCover | apps/assets/migrations/0121_auto_20230725_1458.py:63-66 | every asset of the slice with an ssh protocol gets an sftp row |
| SftpBackfill.OfferedAssetRowLands | apps/assets/migrations/0121_auto_20230725_1458.py:67 | an offered sftp row ends in the table, itself or through a conflicting sftp row of its asset |
| SftpBackfill.Batches | apps/assets/migrations/0121_auto_20230725_1458.py:56-60 | the slices of a fixed id list from an offset; `BatchesCover` states they concatenate to the list |
| SftpBackfill.BackfillFrom | apps/assets/migrations/0121_auto_20230725_1458.py:56-67 | the asset loop over the ids read once; `BackfillKeepsRows` and `BackfillReachesTarget` state its result |
| SftpBackfill.AsWrittenFrom | apps/assets/migrations/0121_auto_20230725_1458.py:51-67 | the asset loop as written, re-running the query for every slice; `AsWrittenSkipsAssets` exhibits the assets it misses |
| SftpBackfill.BatchesCover | apps/assets/migrations/0121_auto_20230725_1458.py:56-60 | over a list evaluated once, the slices at offsets 0, 1000, 2000, … concatenate to the list, so each id is covered once and in order; and each slice holds 1 to 1000 ids |
| SftpBackfill.BackfillKeepsRows | apps/assets/migrations/0121_auto_20230725_1458.py:56-67 | the loop keeps existing rows and adds only sftp rows of listed assets, copied from their ssh protocols |
| SftpBackfill.BackfillReachesTarget | apps/assets/migrations/0121_auto_20230725_1458.py:56-67 | with the list evaluated once, every listed asset with an ssh protocol ends with an sftp protocol |
| SftpBackfill.PendingIdsAfterBatch | apps/assets/migrations/0121_auto_20230725_1458.py:51-57 | re-running the query after a slice lists the old ids minus those that left it |
| SftpBackfill.FirstSliceLeavesQuery | apps/assets/migrations/0121_auto_20230725_1458.py:51-67 | when the first slice's insert meets no conflict and every asset of the slice has an ssh protocol: after that slice, an asset is pending iff it was pending and is not in the slice |
| SftpBackfill.AsWrittenSkipsAssets | apps/assets/migrations/0121_auto_20230725_1458.py:51-60 | with 2000 pending assets that all have ssh, the loop as written leaves asset 1000 without sftp; the list-evaluated-once loop gives it one |
| SftpBackfill.AssetDb.MigratePlatformsSftpProtocol | apps/assets/migrations/0121_auto_20230725_1458.py:6-40 | the platform-protocol table becomes `PlatformBackfill` of the old tables; no other table changes |
| SftpBackfill.AssetDb.SliceRows | apps/assets/migrations/0121_auto_20230725_1458.py:63-66 | the new rows of one slice are `BatchRows` |
| SftpBackfill.AssetDb.MigrateAssetsSftpProtocolAsWritten | apps/assets/migrations/0121_auto_20230725_1458.py:43-67 | the loop as written: the asset-protocol table becomes `AsWrittenFrom`, which re-runs the query for every slice |
| SftpBackfill.AssetDb.MigrateAssetsSftpProtocol | apps/assets/migrations/0121_auto_20230725_1458.py:43-67 | corrected loop: the ids are read once; its slices are `Batches` of them; the table becomes `BackfillFrom` |
| SftpBackfill.AssetDb.MigrateAsWritten | apps/assets/migrations/0121_auto_20230725_1458.py:77-80 | the migration as written: the platform table becomes `PlatformBackfill`, then the asset table becomes `AsWrittenFrom` over the updated platform protocols |
| SftpBackfill.AssetDb.MigrateCorrected | apps/assets/migrations/0121_auto_20230725_1458.py:77-80 | the platform step, then the corrected asset step, `BackfillFrom` over the ids read once, on the updated platform protocols |

## Left out

- The latest status, latest stat and the `is_normal`, `is_high` and `is_critical` properties (terminal.py:24-46) depend on a status model that is not part of this model.
- `get_online_sessions`, `get_online_session_count` and `tmp_to_root_org` (terminal.py:217-222) query sessions of another subsystem.
- `service_account` (terminal.py:249-251) only returns `user`.
- `Protocol.__str__` and the port validators: the validators only run on full validation, which seeding does not call, so the model does not bound ports.
- The reflection over `dir(settings)` becomes an explicit map of settings.
- `get_login_title` is a parameter of `Config`.
- The Django cache backend becomes a map from key to expiry with an explicit clock. Real time, eviction and races between writers are left out.
- The User model is reduced to existence and `is_active`. UUID generation, translations and `print` output are left out.
- TerminalRegistry.Terminal.Delete: does not model the database cascade. Deleting the user cascades to the terminal row and its protocol links. `save()` then re-inserts the row without those links. The model keeps the record and its protocol set.
- Concurrency and atomicity: the terminal operations open no transaction of their own, apart from the savepoint get-or-create puts around its insert; the model reflects that savepoint by leaving the table unchanged on `IntegrityError`. Each step of migration 0121 runs inside the migration's transaction, which plays no part in the model because no modelled migration step fails on the backend the model assumes (see the slice subquery below). Concurrent get-or-create races are not modelled.
- Query order: every query returns rows in the order of the sequence that models its table. For `.first()` on the storage tables (`apps/terminal/models/terminal.py:63-66`, `85-88`), which orders an unordered query by primary key, that sequence stands for primary-key order; elsewhere it stands for whatever order the database returns.
- The unique constraints of the platform-protocol and asset-protocol tables are not visible in these files. The model takes them as a conflict relation. SftpBackfill.BackfillReachesTarget, SftpBackfill.PlatformBackfillReachesTarget, SftpBackfill.OfferedEntryLands and SftpBackfill.OfferedAssetRowLands assume the relation only relates rows with the same name on the same platform or asset.
- SftpBackfill.AsWrittenSkipsAssets: shows the skipped assets on one family of inputs (2000 pending assets, all with ssh, no conflicts). It does not say how many assets are skipped in general.
- The slice subquery `asset_id__in=_asset_ids` (migration line 63) passes a query with LIMIT/OFFSET into `IN`. The model assumes a database backend that runs such a subquery, such as PostgreSQL; MySQL and MariaDB reject LIMIT inside an `IN` subquery, and the migration would raise there. The subquery is read at the same table state as the emptiness check just before it, so the model uses one slice for both.
- apps/applications/serializers/attrs/type/pgsql.py only declares a default port and is not part of this model.

## Findings

| source | as written | input that shows it | evidently intended | confidence | as-written member | corrected member |
|---|---|---|---|---|---|---|
| apps/assets/migrations/0121_auto_20230725_1458.py:51-60 | On a backend that accepts a LIMIT subquery inside `IN` (such as PostgreSQL; MySQL and MariaDB raise instead): `asset_ids` is a lazy query that excludes assets with sftp. Each slice `asset_ids[count:count + 1000]` re-runs it after earlier slices have given assets sftp, and still skips `count` rows | 2000 pending assets, all with an ssh protocol. After slice 1, assets 0-999 leave the query. Slice 2 reads offset 1000 of the 1000 that remain, finds nothing and ends the loop. Assets 1000-1999 never get sftp | visit every pending asset once: read the ids once, then slice that fixed list | not executed | SftpBackfill.AsWrittenFrom, SftpBackfill.AsWrittenSkipsAssets | SftpBackfill.BackfillFrom, SftpBackfill.BackfillReachesTarget |
