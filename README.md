# wp-syncs, modelled in Dafny

wp-syncs is a WordPress multisite plugin. It copies posts and terms from the site where they are edited to every other site of the network. A network-wide mapping table binds each site-local object id to a shared *sync id*. This project models three parts of the plugin and proves properties about them:

- **The mapping store** (`Database`, module `MappingStore`, file `mapping_store.dfy`; when the table is shared: module `TableNameProofs`, file `table_name_proofs.dfy`). The table is a sequence of rows `(id, sync_id, object_id, object_type, site_id)` in auto-increment order. The model also holds the counter, the ambient current blog and the schema-version marker. The read queries are row-level functions with contracts. `create`, `delete` and `create_table` are methods of the `Database` class.
- **The replication engine** (`Syncs`). It comes in two layers:
  - `replication.dfy` (module `Replication`) specifies a whole `sync` call on values. A `World` holds the rows, the counter, the current blog, the `switch_to_blog` stack and one post store and one term store per site. `SiteStep` is one iteration of the fan-out loop, `FoldSites` is the loop and `SyncSpec` is the call.
  - `engine.dfy` (module `Engine`) is the `Syncs` class as the plugin runs it: blog switching, the per-site loop, `create` with its metadata loop, the memoised allow-lists and the four hook callbacks. Each method is proved to perform exactly the transition the value-level function describes.
  - `replication_proofs.dfy` (module `ReplicationProofs`) proves what the engine promises and what it does not: validity and locality of every step, at most one mapping row per sync id on each site, replacement (not duplication) of a replica under the same sync id, delete-only behaviour of the delete action, the early bails, and the context left switched by the `continue` paths.
  - `sync_id_finding.dfy` (module `SyncIdFinding`) shows on two-site networks what the sync id `sync` fans out under does to repeated syncs, and proves that the intended resolution fixes it (see Findings).
- **The CLI format options** (`Command::get_format_args`, module `CliFormat`, file `cli_format.dfy`).

The model reproduces these behaviours of the code as they are written:

- `create` returns the insert count 1, not the sync id it stores. So a freshly mapped object fans out under sync id 1, while later syncs of it use the sync id its row stores: a second sync adds a second copy, and a delete misses the copy (see Findings).
- `get_last_sync_id` reads the most recent row, not the largest sync id.
- `sync` passes a third argument to `Database::delete`, which takes two. PHP drops the extra argument, so the row is deleted for the current blog.
- In `create`, the parent lookup overwrites `$sync_id`, so the `sync_id` meta stamp is the job's sync id only for parent-less objects.
- The two `continue` paths skip `restore_current_blog`.
- `update_metadata` overwrites a copied `sync_id` meta value.
- The allow-list filter runs after `array_unique`, so its output is not made unique.

WordPress itself is abstract. Calls whose outcome the plugin cannot predict are inputs:
- the success of each delete and insert (`SiteOutcome`, `Env.originInsertOk`);
- `wp_is_large_network`;
- the list `get_sites` returns, cut to its 1000-site limit;
- the `syncs_post_types` / `syncs_taxonomies` filters.

## Model

| member | source | states |
|---|---|---|
| MappingStore.FirstMatch | src/class-database.php:70-81 | the index returned is below the length exactly when some row matches, and it is then the first matching row |
| MappingStore.Lookup | src/class-database.php:67-82 | `get` is 0 when no row matches (object, type, site), where site 0 means the current blog; otherwise it is the requested column of the first matching row |
| MappingStore.ReverseLookup | src/class-database.php:92-107 | `get_object_id` is 0 when no row on the current blog has (type, sync id); otherwise it is the object id of the first such row |
| MappingStore.LastSyncId | src/class-database.php:114-124 | 0 on an empty table; otherwise the sync id of the row with the largest auto-increment id (not the largest sync id) |
| MappingStore.Without | src/class-database.php:22-30 | the rows left by a DELETE are exactly the rows that do not match the filter, and the table is unchanged exactly when no row matched |
| MappingStore.WithoutAscending | src/class-database.php:22-30 | deleting rows keeps the auto-increment ids ascending |
| MappingStore.Database.constructor | src/class-database.php:10-12 | opening the store runs the version bootstrap: a stale or missing version drops all rows and restarts the counter, a current version keeps the stored rows |
| MappingStore.Database.CreateTable | src/class-database.php:140-172 | with options available and a version other than 3, every row is dropped, the counter restarts at 1 and the marker becomes 3; otherwise nothing changes, so a second call is a no-op |
| MappingStore.Database.Delete | src/class-database.php:22-30 | removes every row for (object, type, current blog), keeps all other rows in order, and returns true exactly when a row was removed |
| MappingStore.Database.Create | src/class-database.php:41-55 | on success appends exactly one row tagged with the current blog, with sync id `get_last_sync_id()+1` when none is given; returns 1, not the sync id; on failure nothing changes |
| MappingStore.Dec | src/class-database.php:134 | the decimal rendering of a blog id is a non-empty string of digits, a single digit exactly for ids below 10 |
| MappingStore.DecRoundTrip | src/class-syncs.php:421 | a number rendered as a meta string reads back as the same number |
| MappingStore.StrRemove | src/class-database.php:134 | `str_replace(needle, '')` returns the string unchanged when the needle is empty or its first character does not occur in the string |
| MappingStore.NewRow | src/class-database.php:41-54 | the row `create` inserts has the counter's id, the object, the type and the current blog; a given sync id is kept, an empty one becomes `get_last_sync_id()+1`, so the stored sync id is never 0 |
| MappingStore.TableName | src/class-database.php:131-135 | the table name always ends in `syncs`, and a prefix without an underscore is kept whole |
| MappingStore.StrRemoveSkipsPlainPrefix | src/class-database.php:134 | removing an underscore-led needle leaves an underscore-free head untouched |
| MappingStore.SharedTableName | src/class-database.php:131-135 | for a base prefix without underscores, the main site's prefix `base_` and a site's prefix `base_<id>_`, with that site current, both name the table `base_syncs`, so every site shares one table |
| TableNameProofs.MainPrefixTable | src/class-database.php:131-135 | the main site's prefix `a_c_` (no underscore in `a` or `c`, and `c` not starting with the main id) is kept whole: the table is `a_c_syncs` |
| TableNameProofs.SitePrefixCutsBase | src/class-database.php:131-135 | for a base `a_<id>c`, site `id` loses both `_<id>` and names `ac_syncs` |
| TableNameProofs.BasePrefixWithBlogIdSplitsTable | src/class-database.php:131-135 | with base `wp_2019`, the main site names `wp_2019_syncs` but site 2 names `wp019_syncs`: the sites do not share one table |
| MappingStore.CreateThenGet | tests/class-database.php:25-31 | `get` right after `create` for an unmapped object returns the sync id the new row stores |
| MappingStore.CreateThenGetObjectId | tests/class-database.php:17-23 | `get_object_id` for the stored sync id right after `create` returns the object, when no earlier row on the blog used that sync id |
| MappingStore.CreateOnEmptyTable | tests/class-database.php:42-49 | on an empty table the returned insert count 1 equals the assigned sync id: `get`, `get_last_sync_id` and `get_object_id(type, 1)` all agree with it |
| MappingStore.DeleteThenGetObjectIdMisses | tests/class-database.php:33-40 | after `delete`, `get_object_id` for a sync id only that object carried on the blog returns 0 |
| MappingStore.FreshSyncIdCanCollide | src/class-database.php:44-46 | after rows with sync ids 2 then 1, `create` gives a fresh object sync id 2, already held by another object |
| Replication.TakeSnapshot | src/class-syncs.php:434-453 | `get` reads the object's fields and metadata on the current blog; a missing object, or a term outside the recorded taxonomy, has no data |
| Replication.FindTermNamed | src/class-syncs.php:373 | `get_term_by('name')` finds a term of that name and taxonomy, and none with a lower id; when it finds none, no such term exists below the bound |
| Replication.ResolveParent | src/class-syncs.php:353-364 | parent 0 stays 0 and keeps the caller's sync id; otherwise `$sync_id` becomes the parent's origin sync id (0 if none), and the new parent is the target blog's object for it, linked to the origin parent through one sync id; it is 0 when that sync id is 0 or the target blog has no row for it |
| Replication.CreateObject | src/class-syncs.php:338-424 | `create` changes no row, counter, blog or stack, and no store but the current blog's; it returns an id exactly when the snapshot has data and the insert succeeds, and, when the data matches the job's type, that id is the table's next id and is stored afterwards |
| Replication.RemoveRemote | src/class-syncs.php:515-530 | the delete half of a visit: `$deleted` false means nothing changed, a succeeding delete always gives true; rows are only removed, and only on the current blog; with a succeeding delete the store loses exactly the object mapped to the sync id |
| Replication.SiteStep | src/class-syncs.php:507-546 | visiting the origin changes nothing; the row counter never goes back; other sites' stores and rows are unchanged |
| Replication.FoldSites | src/class-syncs.php:505-546 | the loop leaves the store and the rows of the origin and of every site it does not visit unchanged |
| Replication.ResolveSyncId | src/class-syncs.php:478-484 | touches no store or context; gives 0 exactly when the object has no row and the insert fails; the rows are unchanged or gain one new row with sync id `get_last_sync_id()+1`, and then the sync id used is 1 |
| Replication.ResolveSyncIdIntended | src/class-syncs.php:478-484 | the same rows and the same failure case as `ResolveSyncId`, but a non-zero sync id is always the one a row of the origin holds for the object |
| Replication.Propagate | src/class-syncs.php:486-549 | the tail of `sync` returns true exactly when a sync id was resolved and the network is not large; the origin's and unvisited sites' stores are unchanged |
| Replication.SyncSpec | src/class-syncs.php:477-549 | `sync` returns true exactly when the resolution gives a non-zero sync id and the network is not large; the origin's and unvisited sites' stores are unchanged |
| Replication.SyncIntended | src/class-syncs.php:477-549 | `sync` with the intended resolution: the same return condition and the same untouched stores |
| ReplicationProofs.SiteStepValid | src/class-syncs.php:507-546 | one site visit keeps the mapping table and every site store well formed |
| ReplicationProofs.FoldValid | src/class-syncs.php:507-546 | the whole fan-out loop keeps the table and every store well formed |
| ReplicationProofs.CreateObjectValid | src/class-syncs.php:338-424 | `create` keeps the stores well formed |
| ReplicationProofs.SiteStepLocal | src/class-syncs.php:507-513 | visiting site s changes no other site's store and no row outside s, and visiting the origin changes nothing |
| ReplicationProofs.FoldOffSites | src/class-syncs.php:505-513 | the loop never writes the store or the rows of the origin site or of a site it does not visit |
| ReplicationProofs.RemoveRemoteClears | src/class-syncs.php:515-530 | `$deleted` is false exactly when a remote copy exists and its delete fails, in which case nothing changes; once true, no row on the site carries the sync id, when the site held at most one row for it |
| ReplicationProofs.CreateObjectInserts | src/class-syncs.php:366-368 | a create with data and a successful insert returns a positive id that was not in the site's store and is there afterwards |
| ReplicationProofs.SiteStepReplicas | src/class-syncs.php:515-545 | a site visit keeps at most one row for the sync id on that site; with every call succeeding a create leaves exactly one mapped replica, and a successful remote delete leaves none |
| ReplicationProofs.FoldReplicas | src/class-syncs.php:505-546 | over the whole loop, a visited site with every call succeeding ends with exactly one row for the job's sync id, mapping a stored object; with a successful delete it ends with none; there is never more than one. Rows under other sync ids are not covered (see Findings) |
| ReplicationProofs.SiteStepDeleteShrinks | src/class-syncs.php:515-533 | a delete visit removes rows and objects and creates none |
| ReplicationProofs.FoldDeleteShrinks | src/class-syncs.php:505-546 | the delete fan-out only ever removes rows and objects |
| ReplicationProofs.SyncBails | src/class-syncs.php:477-494 | `sync` returns false exactly when no sync id is obtained or the network is large; then no store, stack or blog changes, and the rows are unchanged or gain only the new origin row |
| ReplicationProofs.FreshObjectFansOutUnderSyncIdOne | src/class-syncs.php:479-484 | for an unmapped object, the stored row gets `get_last_sync_id()+1` but the fan-out uses 1; the two agree only when the last row's sync id is 0 |
| ReplicationProofs.ResolveSyncIdLocal | src/class-syncs.php:479-484 | resolving the sync id touches no store or context and changes rows only on the current blog |
| ReplicationProofs.SyncSparesUnvisited | src/class-syncs.php:505-513 | `sync` leaves the origin's store, and the store of every site outside the first 1000 returned, as they were |
| ReplicationProofs.SyncCreateReplicates | src/class-syncs.php:477-549 | a create sync run on the origin returns true and leaves each visited site where every call succeeds with exactly one replica mapped to the sync id this call resolved; a fresh object resolves 1 on its first call, so a repeat can resolve another (see Findings) |
| ReplicationProofs.SyncDeleteRemoves | src/class-syncs.php:496-533 | a delete sync that returns true removes the origin's row, creates no row and no object anywhere, and on each visited site whose delete succeeds leaves no row for the sync id and takes the object that row mapped out of the store |
| ReplicationProofs.ReverseLookupOfUnique | src/class-database.php:92-107 | with at most one row for (type, sync id) on the blog, `get_object_id` returns that row's object |
| ReplicationProofs.LookupOfUnique | src/class-database.php:67-82 | with at most one row for the object on the blog, `get` returns that row's sync id |
| ReplicationProofs.SiteStepRemovesMappedCopy | src/class-syncs.php:515-545 | after a visit whose remote delete succeeds, the object the site mapped to the sync id is no longer stored (for a create: when it was stored, since the insert takes a new id) |
| ReplicationProofs.CreateObjectOnlyAdds | src/class-syncs.php:338-424 | after `create`, every object is either the new one under the table's next id or an old one, unchanged |
| ReplicationProofs.SiteStepKeepsCount | src/class-syncs.php:515-545 | re-visiting a site that holds the replica, with every call succeeding, does not grow its store; a post store keeps its size |
| ReplicationProofs.ReplacedKeys | src/class-syncs.php:515-545 | such a re-visit leaves the old ids minus the replica plus the table's next id (for terms, at most those) |
| ReplicationProofs.FoldKeepsCount | src/class-syncs.php:505-546 | over the whole loop, a site that holds the replica keeps exactly one and its store does not grow (posts: keeps its size), however often it is visited |
| ReplicationProofs.FoldDeleteRemovesCopy | src/class-syncs.php:505-533 | a delete loop that visits a site with a succeeding remote delete takes the object mapped there to the sync id out of its store |
| ReplicationProofs.FoldRestoresContext | src/class-syncs.php:505-546 | when every delete and insert succeeds, the loop leaves the blog and the blog stack as it found them |
| ReplicationProofs.PropagateDeleteRemoves | src/class-syncs.php:496-546 | a delete tail that returns true only removes rows and objects, drops the origin's rows for the object, and on a visited site with a succeeding delete leaves no row for the sync id and no mapped object |
| ReplicationProofs.SiteStepContext | src/class-syncs.php:527-545 | a visit that runs to its end restores the blog and the stack; after a failed remote delete or a failed create, the blog stays switched to the site with the old blog left on the stack |
| ReplicationProofs.CreateObjectCopies | src/class-syncs.php:338-424 | the replica gets the table's next id, the snapshot's fields with the translated parent, and the collapsed, stamped metadata; the stamp is the sync id for a parent-less object and 0 for a parent without a row |
| ReplicationProofs.ReplicaMetaShape | src/class-syncs.php:410-421 | replica metadata has the snapshot's keys plus `sync_id`; single values are stored as themselves, multiple values as one array, and the stamp reads back as its number |
| ReplicationProofs.TermCreateDisplacesNamesake | src/class-syncs.php:372-375 | after a term create, the new term is the only term of its name and taxonomy on the site, when the site had at most one before |
| ReplicationProofs.RepeatedDeleteTargetsSyncIdOne | src/class-syncs.php:479-499 | deleting an object whose row is already gone stores and removes a fresh origin row, returns true and fans out the delete under sync id 1 |
| ReplicationProofs.RepeatedDeleteChangesNoSite | tests/class-syncs.php:125-135 | a second delete, with nothing on the other sites mapped to sync id 1, leaves every store and every row unchanged |
| ReplicationProofs.SiteStepStampMatchesMapping | tests/class-syncs.php:228-229 | after a successful visit, a parent-less replica's `sync_id` meta reads back as the sync id `get_sync_id` gives for it on that site |
| Engine.Unique | src/class-syncs.php:150 | `array_unique` keeps the same values, without repeats |
| Engine.UniqueOfDistinct | src/class-syncs.php:150 | a list without repeats passes through `array_unique` unchanged |
| Engine.Listed | src/class-syncs.php:146-164 | a non-empty cache is the answer; otherwise a non-array filter result gives an empty list, and a filter that passes its input through gives the registered names, each once |
| Engine.Syncs.constructor | src/class-syncs.php:65-67 | the origin blog is the blog current at construction; the caches start empty |
| Engine.Syncs.SwitchToBlog | src/class-syncs.php:513 | pushes the current blog and makes the site current |
| Engine.Syncs.RestoreCurrentBlog | src/class-syncs.php:545 | pops the last remembered blog back into place |
| Engine.Syncs.DeleteObject | src/class-syncs.php:319-328 | returns the host's delete outcome and, on success, removes the object from the current blog's store |
| Engine.Syncs.CollapseMeta | src/class-syncs.php:410-418 | the metadata loop writes every key once with its collapsed value |
| Engine.Syncs.Insert | src/class-syncs.php:366-368 | an insert gives the object a positive, previously unused id on the current blog |
| Engine.Syncs.CreateIn | src/class-syncs.php:338-424 | performs `create` as `CreateObject` specifies: collision delete, parent translation, insert, metadata and stamp |
| Engine.Syncs.RemoveRemoteAt | src/class-syncs.php:515-525 | performs the delete half of a site visit as `RemoveRemote` specifies |
| Engine.Syncs.VisitSite | src/class-syncs.php:507-546 | performs one loop iteration as `SiteStep` specifies |
| Engine.Syncs.ResolveSyncIdAt | src/class-syncs.php:478-484 | performs the sync-id resolution as `ResolveSyncId` specifies |
| Engine.Syncs.FanOut | src/class-syncs.php:505-546 | the loop leaves exactly the state `FoldSites` gives, proved through the invariant over the sites visited so far |
| Engine.Syncs.PropagateFrom | src/class-syncs.php:496-546 | once the sync id is known and the network is small, the origin-row delete, the snapshot and the loop leave exactly the state `Propagate` gives |
| Engine.Syncs.Sync | src/class-syncs.php:477-549 | the final state and the returned flag are exactly those of `SyncSpec` |
| Engine.Syncs.GetSyncId | src/class-syncs.php:464-466 | 0 when the object has no row on the site (0: current blog), else the first row's sync id |
| Engine.Syncs.GetPostTypes | src/class-syncs.php:146-164 | a non-empty cache is returned unchanged; otherwise the filter result for the unique registered types (an empty list for a non-array) is cached and returned |
| Engine.Syncs.GetTaxonomies | src/class-syncs.php:171-189 | the same memoisation for taxonomies |
| Engine.Syncs.SavePost | src/class-syncs.php:199-217 | returns false with no change when switched on a multisite or for post id 0, and when the type is not allowed; otherwise returns the create sync's result |
| Engine.Syncs.DeletePost | src/class-syncs.php:96-114 | returns false with no change when switched, for id 0, for a missing post or a type not allowed; otherwise returns the delete sync's result |
| Engine.Syncs.SaveTerm | src/class-syncs.php:226-242 | returns false with no change when switched, for id 0 or a taxonomy not allowed; otherwise records the taxonomy and returns the create sync's result |
| Engine.Syncs.DeleteTerm | src/class-syncs.php:123-139 | the same guards, then records the taxonomy and returns the delete sync's result |
| CliFormat.DefaultFormatFields | src/cli/class-command.php:29-31 | the base command has no default field list, so `fields` stays null when not given |
| CliFormat.GetFormatArgs | src/cli/class-command.php:40-60 | exactly the keys fields, field and format; fields and field are copied when set, else the default and null; format is always a valid format, the argument exactly when it is non-empty and in the list, else 'table' |
| CliFormat.NoArgsGivesDefaults | src/cli/class-command.php:29-45 | with no arguments the base command gets null fields, null field and 'table' |
| CliFormat.FormatArgsIdempotent | src/cli/class-command.php:40-60 | passing the options back in as arguments gives the same options |
| SyncIdFinding.VisitFresh | src/class-syncs.php:507-545 | visiting a site with no store yet and nothing mapped to the sync id copies the post there as post 1 and appends its mapping row |
| SyncIdFinding.FirstSyncOfSeeded | src/class-syncs.php:477-549 | with post 50 already mapped under 7, the first sync of post 10 stores sync id 8 for it but maps site 2's copy under 1 |
| SyncIdFinding.ReSyncDuplicates | src/class-syncs.php:478-545 | as written, syncing post 10 twice leaves site 2 with two copies |
| SyncIdFinding.DeleteMissesCopy | src/class-syncs.php:478-533 | as written, a delete sync after the first sync returns true and site 2 keeps the copy |
| SyncIdFinding.FirstSyncOfUnmapped | src/class-syncs.php:477-549 | on an empty table both resolutions agree on the first sync: sync id 1, one copy on site 2 |
| SyncIdFinding.FreshSyncEvictsOtherReplica | src/class-syncs.php:478-545 | as written, syncing post 11 after post 10 deletes post 10's copy on site 2, since both fan out under 1 |
| SyncIdFinding.IntendedFreshSyncKeepsOtherReplica | src/class-syncs.php:478-545 | with the intended resolution post 11 fans out under 2 and both copies stay on site 2 |
| SyncIdFinding.IntendedResolveMapsOrigin | src/class-syncs.php:478-484 | the intended resolution keeps the origin's row for the object unique and fans out under the sync id it stores |
| SyncIdFinding.IntendedFirstSync | src/class-syncs.php:477-549 | the first intended create sync returns true, restores the blog, leaves a resolution that gives the same sync id again, and maps one replica on the site |
| SyncIdFinding.IntendedReSyncKeepsOneCopy | src/class-syncs.php:477-549 | with the intended resolution a second sync reuses the sync id: one replica before and after, and the site's store does not grow (posts: keeps its size) |
| SyncIdFinding.IntendedDeleteRemovesCopy | src/class-syncs.php:477-549 | with the intended resolution a delete sync after the create takes the replica out of the site's store and leaves no row for the sync id |

## Left out

- `update_attachment_metadata` (src/class-syncs.php:252-309) copies files and uses `wp_upload_dir` and `wp_mkdir_p`. That is file I/O. Its mapping lookups are `get` and `get_object_id`, modelled above.
- `instance()` and the `add_action` hook registration are host wiring. The `Syncs` constructor takes the database and the host instead of creating them.
- SQL text, `$wpdb`, `dbDelta` and the DDL are not modelled. The table is a row sequence.
- The model keeps one row sequence for the whole network, so it assumes every site resolves the same table. `get_table` gives that only when no `_<site id>` occurs in the base prefix (`SharedTableName`). Otherwise a site writes to a table of its own (`BasePrefixWithBlogIdSplitsTable`), which the model does not capture.
  - `created_at` has no behavioural role.
  - Ids are unbounded; the `int(11) unsigned` width is not modelled.
- A database query never fails, except the insert of a mapping row (a `create` outcome input).
- `get` and `get_object_id` select without ORDER BY. The model takes the first row in insertion order.
- `create_table` reads whether `get_site_option` exists as a parameter, and the stored version as a value.
- WordPress calls are inputs or abstract stores:
  - The success of `wp_delete_post` / `wp_delete_term` in `delete` is one input per site. The taxonomy passed to `wp_delete_term` is not modelled.
  - `wp_insert_*` either fails (including `is_wp_error`) or gives the next id of the site's table.
  - `get_term_by('name')` finds the lowest-numbered term of that name. The collision delete always removes that term.
  - `get_post` and `get_term_by('term_id')` read the current blog's store.
- Metadata:
  - `update_metadata` is applied per key to a map that is written with the insert.
  - Metadata WordPress itself adds on insert is not modelled.
  - The `(array)` cast of a non-array meta value is not modelled.
- Post fields other than the parent and `post_type` are opaque. Terms keep name, taxonomy, parent, description and slug.
- Object types other than `post` and `term` are not modelled. The callbacks pass only those two, so the `default` branches of `delete`, `create` and `get` are not modelled.
- `in_array` without strict mode compares numeric strings as numbers. The model uses exact membership. Filter results are lists of strings.
- A missing post's type is read as "" (PHP's null compared loosely with strings). Other loose comparisons are not modelled.
- The CLI `Sync` command (src/cli/commands/class-sync.php), `Command::get_formatter` and plugin.php are plumbing over WP-CLI and WordPress.
- `change_upload_dir`, which the tests use, is not part of this model.
- Concurrent sync calls are not modelled: the code is sequential and takes no locks.

## Findings

`Engine.Syncs.Sync` and `Replication.SyncSpec` keep the behaviour as written. `Replication.ResolveSyncIdIntended` and `Replication.SyncIntended` are the corrected resolution and call. Even with the correction, a fresh sync id taken from the last row can repeat an id already in use (`MappingStore.FreshSyncIdCanCollide`).

| source | as written | input that shows it | evidently intended | confidence | as-written member | corrected member |
|---|---|---|---|---|---|---|
| src/class-syncs.php:481-484 | a fresh object's `$sync_id` becomes the insert count 1 that `create` returns, while its origin row stores `get_last_sync_id()+1` | sites 1 and 2, post 50 of site 1 already mapped under 7: sync post 10 from site 1 twice | the copy made by the first sync is replaced by the second | not executed | SyncIdFinding.ReSyncDuplicates | SyncIdFinding.IntendedReSyncKeepsOneCopy |
| src/class-syncs.php:481-484 | every fresh object fans out under sync id 1 | sites 1 and 2, empty table: sync post 10, then post 11, from site 1 | each post keeps its own copy on site 2 | not executed | SyncIdFinding.FreshSyncEvictsOtherReplica | SyncIdFinding.IntendedFreshSyncKeepsOtherReplica |
| src/class-syncs.php:479-499 | a delete sync fans out under the sync id the origin row stores, not the 1 its copies were mapped under | sites 1 and 2, post 50 mapped under 7: sync post 10, then delete-sync it | the delete removes the copy on site 2 | not executed | SyncIdFinding.DeleteMissesCopy | SyncIdFinding.IntendedDeleteRemovesCopy |
