# Clip blocks: a verified model of the block graph, the clip runner and the selection rules

The application keeps a flat graph of **blocks** in SQLite. Each block has a type: `clip`, `action`,
`project_root`, `selected_path` or a custom one. It also holds a JSON object of properties, the ids of
its children (`content`) and an optional parent. A **clip** block is run by taking its children from the
store, picking the first `action` child and running that action's JavaScript `code`. The answer is a
single `{ error, message }` envelope. This happens in two places: the main-process function
`runClipBlock` and the `block-run` IPC handler.

Around this core sit several other parts:
- the block type, clip and label tables with their repositories;
- the label cap of the `clip-add-label` handler;
- the renderer's block and clip stores;
- the drag-to-attach rule of the clip board;
- the required-slot display rule of a clip card;
- the comma-separated paths field of the property form;
- the file picker's range and toggle selection;
- the common-root and `txtExtract` helpers of the built-in clip actions.

The model follows the program's structure, one module per source file:

- `Tables`, `BlockTable`, `BlockTypeTable`, `ClipTable`, `LabelTable`: each SQLite table is a value.
  - A table maps ids to rows stamped with a creation and an update time.
  - It also keeps an insertion order.
  - Each repository statement is a pure transition on that value. The lemmas are stated about these transitions.
- `Storage.Database`: one mutable object holding every table and the clock the repositories read.
  - The repository classes `BlockSqliteRepository`, `BlockTypeSqliteRepository`, `ClipSqliteRepository` and
    `LabelSqliteRepository` change it in place.
  - Each method is proved to do exactly what the matching transition describes, and to leave the other tables alone.
- `ClipRunner` and `BlockIpc`:
  - the runner's decision sequence is one function, `Decide`;
  - the two envelopes are `RunClipBlock` and `BlockRun`;
  - the IPC handlers form a class that records every `clip-run-done` message it sends.
- `LabelIpc`: the label handlers, with the 10-label cap as a checked insertion.
- `BlockStore` and `ClipStore`: the renderer's stores.
  - Each is a class whose list is replaced by each operation.
  - Each talks to the handler or repository behind it, so the database effect of each call is stated as well.
- `ClipBlockCard`, `ClipHome`, `BlockPropertyForm`, `FileExplorer`: the rules these components apply to lists
  and strings.
  - The drag handler of the clip board is a class over the block store.
  - So is the selection handler of the file picker.
- `ClipActions`: `findCommonRoot`, its nested loop proved against a specification, and the `txtExtract` text.
- Shared helpers live in `Base` (optional values, results, the `{ success }` reply) and `Seqs` (`filter`, `map`,
  `find`, `indexOf`, `new Set`). `Text` holds JavaScript `trim`, `split`/`join` on one character and first-match
  `replace`. `Json` holds property values and JavaScript truthiness.

`nanoid()` is a `generated` parameter of the operation that needs a fresh id. `new Date().toISOString()` is a
reading of `Database.clock`, which every write advances. The user's action script is a `ScriptHost`
function from (code, clip, children) to "returned" or "threw message".

Three facts about the code:
- Neither runner checks a clip's required block types. That rule exists only as the card's display rule.
- An action without code is an error in both runners; there is no built-in fallback action.
- The `block-run` handler resolves children from the content of the payload it was sent, not from a
  re-read of the stored clip.

## Model

| member | source | states |
|---|---|---|
| BlockTable.DecodeType | client/electron/main/repository/BlockSqliteRepository.ts:154-186 | the decoded type is always one of the four known types; it equals the stored type exactly when that type is known, and is `clip` otherwise |
| BlockTable.DecodeParent | client/electron/main/repository/BlockSqliteRepository.ts:145 | `parent \|\| null`: the parent is kept exactly when it is present and non-empty |
| BlockTable.RowToBlock | client/electron/main/repository/BlockSqliteRepository.ts:137-188 | a decoded row keeps the id, properties and content, has a known type, and carries both stamps |
| BlockTable.FindById | client/electron/main/repository/BlockSqliteRepository.ts:42-46 | null exactly for an absent id, otherwise the decoded row |
| BlockTable.FindAll | client/electron/main/repository/BlockSqliteRepository.ts:30-37 | one decoded block per stored row, in table order |
| BlockTable.FindAllSorted | client/electron/main/repository/BlockSqliteRepository.ts:30-37 | on a well-formed table `findAll` lists every stored id exactly once and is ordered by `created_at` ascending |
| BlockTable.Create | client/electron/main/repository/BlockSqliteRepository.ts:53-82 | fails with a primary-key violation exactly when the chosen id (`id ?? nanoid()`) is already stored; otherwise it returns that id and the row exists |
| BlockTable.CreateDefaults | client/electron/main/repository/BlockSqliteRepository.ts:57-79 | creating from an empty draft stores and reads back `clip`, `{}`, `[]`, `null` under the fresh id, stamped now |
| BlockTable.CreateKeepsGivenId | client/electron/main/repository/BlockSqliteRepository.ts:57-81 | a given id, the empty string included, is the id created and returned |
| BlockTable.CreateReadBack | client/electron/main/repository/BlockSqliteRepository.ts:53-82 | after `create`, `findById` returns the stored properties, content and decoded parent; the type round-trips iff it is known; both stamps are now; other rows read as before |
| BlockTable.Update | client/electron/main/repository/BlockSqliteRepository.ts:88-115 | an unknown id changes nothing; the order and the set of ids never change |
| BlockTable.UpdateOnlyThatRow | client/electron/main/repository/BlockSqliteRepository.ts:88-115 | the row with that id gets the new type, properties, content, parent and `updated_at`, keeping `created_at`; every other row reads as before |
| BlockTable.DeleteById | client/electron/main/repository/BlockSqliteRepository.ts:122-131 | removes exactly that id |
| BlockTable.DeleteNoCascade | client/electron/main/repository/BlockSqliteRepository.ts:122-131 | the deleted block is gone and every other block, its content included, reads as before, so dangling child ids remain |
| BlockTable.CreateValid | client/electron/main/db.ts:31-39 | a successful insert keeps the table well formed (no duplicate ids, creation order) and stamped no later than now |
| BlockRepository.BlockSqliteRepository.FindAll | client/electron/main/repository/BlockSqliteRepository.ts:30-37 | returns `BlockTable.FindAll` of the stored table: every id once, ascending by `created_at` |
| BlockRepository.BlockSqliteRepository.FindById | client/electron/main/repository/BlockSqliteRepository.ts:42-46 | null exactly for an absent id |
| BlockRepository.BlockSqliteRepository.Create | client/electron/main/repository/BlockSqliteRepository.ts:53-82 | the blocks table becomes what `BlockTable.Create` gives at the next clock reading, or is unchanged on the key violation; other tables unchanged |
| BlockRepository.BlockSqliteRepository.Update | client/electron/main/repository/BlockSqliteRepository.ts:88-115 | the blocks table becomes `BlockTable.Update` at the next clock reading; other tables unchanged |
| BlockRepository.BlockSqliteRepository.DeleteById | client/electron/main/repository/BlockSqliteRepository.ts:122-131 | the blocks table becomes `BlockTable.DeleteById`; other tables and the clock unchanged |
| BlockTypeTable.RowToBlockType | client/electron/main/repository/BlockTypeSqliteRepository.ts:71-79 | a decoded row keeps id, name, definitions and both stamps |
| BlockTypeTable.FindById | client/electron/main/repository/BlockTypeSqliteRepository.ts:23-29 | null exactly for an absent id |
| BlockTypeTable.FindAll | client/electron/main/repository/BlockTypeSqliteRepository.ts:16-21 | one decoded definition per stored row, in table order |
| BlockTypeTable.ChosenIdKeptIffNonBlank | client/electron/main/repository/BlockTypeSqliteRepository.ts:34-35 | the caller's id is used exactly when it is present and not blank after trimming; otherwise the fresh id |
| BlockTypeTable.Create | client/electron/main/repository/BlockTypeSqliteRepository.ts:31-49 | succeeds exactly when the chosen id is free and no other row has the name (default `custom`); then returns that id, and `findById` reads back that id, `name ?? "custom"`, `propertiesDefinition ?? []` and both stamps equal to the write time, every other row unchanged |
| BlockTypeTable.CreateDefaults | client/electron/main/repository/BlockTypeSqliteRepository.ts:34-48 | an empty draft stores and reads back name `custom` and no definitions under the fresh id |
| BlockTypeTable.CreateDuplicateNameFails | client/electron/main/db.ts:46 | inserting a name another row already has fails (UNIQUE) |
| BlockTypeTable.CreateKeepsNamesUnique | client/electron/main/db.ts:46 | a successful create keeps names unique |
| BlockTypeTable.Update | client/electron/main/repository/BlockTypeSqliteRepository.ts:51-65 | fails exactly when the new name belongs to another row; an unknown id changes nothing |
| BlockTypeTable.UpdateOnlyThatRow | client/electron/main/repository/BlockTypeSqliteRepository.ts:51-65 | that row gets the new name, definitions and `updated_at` and keeps `created_at`; other rows read as before |
| BlockTypeTable.UpdateKeepsNamesUnique | client/electron/main/db.ts:46 | a successful update keeps names unique |
| BlockTypeTable.DeleteById | client/electron/main/repository/BlockTypeSqliteRepository.ts:67-69 | removes exactly that id |
| BlockTypeTable.CreateValid | client/electron/main/db.ts:44-50 | a successful insert keeps the table well formed and stamped no later than now |
| BlockTypeRepository.BlockTypeSqliteRepository.FindAll | client/electron/main/repository/BlockTypeSqliteRepository.ts:16-21 | returns `BlockTypeTable.FindAll`, ascending by `created_at` |
| BlockTypeRepository.BlockTypeSqliteRepository.FindById | client/electron/main/repository/BlockTypeSqliteRepository.ts:23-29 | null exactly for an absent id |
| BlockTypeRepository.BlockTypeSqliteRepository.Create | client/electron/main/repository/BlockTypeSqliteRepository.ts:31-49 | the block types table becomes what `BlockTypeTable.Create` gives, or is unchanged on failure; the blocks table is untouched |
| BlockTypeRepository.BlockTypeSqliteRepository.Update | client/electron/main/repository/BlockTypeSqliteRepository.ts:51-65 | the block types table becomes what `BlockTypeTable.Update` gives, or is unchanged on failure |
| BlockTypeRepository.BlockTypeSqliteRepository.DeleteById | client/electron/main/repository/BlockTypeSqliteRepository.ts:67-69 | removes that block type and touches no block row |
| Storage.Database.constructor | client/electron/main/db.ts:22-52 | every table starts empty and well formed |
| Storage.Database.Now | client/electron/main/repository/BlockSqliteRepository.ts:54 | each reading is later than every stamp written so far; no table changes |
| Blocks.ChildrenOf | client/electron/main/runClipBlock.ts:16-17 | the children are exactly the stored blocks whose id the content lists |
| Blocks.ChildrenInStoreOrder | client/electron/main/runClipBlock.ts:16-17 | children come in store order (filtering distributes over concatenation) |
| Blocks.ChildrenDependOnIdSetOnly | client/electron/main/runClipBlock.ts:16-17 | the order and repetitions of `content` do not matter, only the set of ids |
| Blocks.ChildrenIgnoreDangling | client/electron/main/runClipBlock.ts:16-17 | an id with no stored block is silently dropped |
| Blocks.FirstOfType | client/electron/main/runClipBlock.ts:18 | none exactly when no child has the type; otherwise a child of that type |
| Blocks.FirstOfTypeIsFirst | client/electron/main/runClipBlock.ts:18 | the first child of the type is the one chosen |
| Blocks.CodeOf | client/electron/main/runClipBlock.ts:24-27 | code is found exactly when `code` is a string that is not blank |
| ClipRunner.Decide | client/electron/main/runClipBlock.ts:5-38 | the early exits in order: not a clip iff missing or non-clip; no action iff no action child; no code iff the action has no usable code; otherwise the script's outcome decides |
| ClipRunner.Envelope | client/electron/main/runClipBlock.ts:10-37 | `error` is false exactly for a completed run |
| ClipRunner.EnvelopeInjective | client/electron/main/runClipBlock.ts:10-37 | different outcomes give different envelopes, thrown messages included |
| ClipRunner.RunClipBlock | client/electron/main/runClipBlock.ts:5-38 | a missing or non-clip id gives "Clip block not found or invalid"; success iff every check passes and the script returns; only reads the table |
| ClipRunner.ScriptErrorReported | client/electron/main/runClipBlock.ts:29-35 | the run answers "Error running code: " followed by a message exactly when the script threw that message |
| ClipRunner.UnknownTypeRunsAsClip | client/electron/main/repository/BlockSqliteRepository.ts:179-186 | a stored block of an unknown type gets past the clip check |
| ClipRunner.FirstActionWins | client/electron/main/runClipBlock.ts:18-27 | when the first action child has no code the run fails with "No code in action block", whatever later actions hold |
| ClipRunner.CopyActionWithoutCodeFails | client/electron/main/runClipBlock.ts:24-27 | a `copy` action without code still fails: no built-in fallback |
| BlockIpc.IpcEnvelope | client/electron/main/ipc/blockIpc.ts:37-102 | `error` is false exactly for a completed run |
| BlockIpc.IpcEnvelopeInjective | client/electron/main/ipc/blockIpc.ts:37-102 | different outcomes give different messages |
| BlockIpc.BlockRun | client/electron/main/ipc/blockIpc.ts:37-102 | a non-clip payload gets "Not a clip block. Cannot run."; success iff the decision sequence completes on the payload's content |
| BlockIpc.NonClipIgnoresStore | client/electron/main/ipc/blockIpc.ts:38-44 | the answer to a non-clip payload does not depend on the store |
| BlockIpc.RevisionsAgree | client/electron/main/ipc/blockIpc.ts:37-102 | sent the stored clip, both runners fail or succeed together, at the same step, with the same thrown message |
| BlockIpc.BlockHandlers.BlocksLoad | client/electron/main/ipc/blockIpc.ts:9-11 | answers `findAll` of the blocks table |
| BlockIpc.BlockHandlers.BlocksCreate | client/electron/main/ipc/blockIpc.ts:13-19 | answers `{ success: true, newId }` with the id the repository inserted; a key violation is passed on as an error |
| BlockIpc.BlockHandlers.BlocksUpdate | client/electron/main/ipc/blockIpc.ts:21-27 | forwards to `update` and answers success |
| BlockIpc.BlockHandlers.BlocksDelete | client/electron/main/ipc/blockIpc.ts:29-35 | forwards to `deleteById` and answers success |
| BlockIpc.BlockHandlers.OnBlockRun | client/electron/main/ipc/blockIpc.ts:37-102 | appends exactly one message, `BlockRun` of the payload over the stored blocks |
| ClipTable.Encode | client/electron/main/repository/ClipSqliteRepository.ts:73-83 | stores name, project root and action type as given, `selectedPaths \|\| []`, `actionCode \|\| ""` and `isFavorite` as 1/0 |
| ClipTable.Decode | client/electron/main/repository/ClipSqliteRepository.ts:20-30 | `[]` for missing paths, `""` for missing code, favourite iff nonzero, never a shortcut |
| ClipTable.FindById | client/electron/main/repository/ClipSqliteRepository.ts:33-59 | null exactly for an absent id |
| ClipTable.FindAll | client/electron/main/repository/ClipSqliteRepository.ts:8-31 | one decoded clip per row, in table order |
| ClipTable.DecodeEncode | client/electron/main/repository/ClipSqliteRepository.ts:20-30 | decoding an encoded clip gives it back with a missing code as `""`, a missing favourite flag as false and no shortcut; exactly when code and flag are given and the shortcut is absent, it is unchanged |
| ClipTable.Create | client/electron/main/repository/ClipSqliteRepository.ts:61-84 | fails exactly on a stored id; otherwise inserts the encoded clip |
| ClipTable.CreateReadBack | client/electron/main/repository/ClipSqliteRepository.ts:33-84 | `findById` after `create` gives the stored form of the clip; other clips read as before |
| ClipTable.Update | client/electron/main/repository/ClipSqliteRepository.ts:86-113 | an unknown id changes nothing; ids and order never change |
| ClipTable.UpdateReadBack | client/electron/main/repository/ClipSqliteRepository.ts:86-113 | every non-id field is rewritten, `created_at` kept, `updated_at` now; other clips read as before |
| ClipTable.DeleteById | client/electron/main/repository/ClipSqliteRepository.ts:115-118 | removes the clip and exactly its associations |
| ClipTable.DeleteCascades | client/electron/main/repository/ClipSqliteRepository.ts:115-118 | afterwards no association names the clip and all others remain |
| ClipTable.CreateValid | client/electron/main/repository/ClipSqliteRepository.ts:61-84 | a successful insert keeps the table well formed |
| ClipRepository.ClipSqliteRepository.FindAll | client/electron/main/repository/ClipSqliteRepository.ts:8-31 | returns `ClipTable.FindAll` of the stored table |
| ClipRepository.ClipSqliteRepository.FindById | client/electron/main/repository/ClipSqliteRepository.ts:33-59 | null exactly for an absent id |
| ClipRepository.ClipSqliteRepository.Create | client/electron/main/repository/ClipSqliteRepository.ts:61-84 | the clips table becomes `ClipTable.Create`, or is unchanged on the key violation |
| ClipRepository.ClipSqliteRepository.Update | client/electron/main/repository/ClipSqliteRepository.ts:86-113 | the clips table becomes `ClipTable.Update` at the next clock reading |
| ClipRepository.ClipSqliteRepository.DeleteById | client/electron/main/repository/ClipSqliteRepository.ts:115-118 | clips and associations become `ClipTable.DeleteById` |
| LabelTable.RowToLabel | client/electron/main/repository/LabelSqliteRepository.ts:8-23 | a decoded row keeps id, name, color and both stamps |
| LabelTable.FindById | client/electron/main/repository/LabelSqliteRepository.ts:25-43 | null exactly for an absent id |
| LabelTable.FindAll | client/electron/main/repository/LabelSqliteRepository.ts:8-23 | one decoded label per row, in table order |
| LabelTable.Create | client/electron/main/repository/LabelSqliteRepository.ts:45-54 | fails exactly on a stored id; otherwise inserts name and color |
| LabelTable.CreateReadBack | client/electron/main/repository/LabelSqliteRepository.ts:25-54 | `findById` after `create` returns the same name and color, stamped now |
| LabelTable.Update | client/electron/main/repository/LabelSqliteRepository.ts:56-65 | an unknown id changes nothing; ids and order never change |
| LabelTable.UpdateReadBack | client/electron/main/repository/LabelSqliteRepository.ts:56-65 | on a stored id, `findById` then gives the new name and color, the old `created_at` and `updated_at` equal to the write time; other labels read back as before |
| LabelTable.DeleteById | client/electron/main/repository/LabelSqliteRepository.ts:67-70 | removes the label and exactly its associations |
| LabelTable.DeleteCascades | client/electron/main/repository/LabelSqliteRepository.ts:67-70 | afterwards no association names the label; other labels read as before |
| LabelTable.AddLabelToClip | client/electron/main/repository/LabelSqliteRepository.ts:72-81 | the association set gains exactly the pair |
| LabelTable.AddIdempotent | client/electron/main/repository/LabelSqliteRepository.ts:72-81 | adding an existing pair changes nothing, so adding twice is adding once |
| LabelTable.AddCount | client/electron/main/repository/LabelSqliteRepository.ts:72-94 | adding raises that clip's count by one exactly when the pair is new, and no other clip's count |
| LabelTable.RemoveLabelFromClip | client/electron/main/repository/LabelSqliteRepository.ts:83-87 | the association set loses exactly the pair |
| LabelTable.RemoveOnlyThatPair | client/electron/main/repository/LabelSqliteRepository.ts:83-87 | every other pair stays and the clip's count does not grow |
| LabelTable.CountLabelsOfClip | client/electron/main/repository/LabelSqliteRepository.ts:89-94 | the count is the number of associations of that clip |
| LabelTable.FindLabelsByClip | client/electron/main/repository/LabelSqliteRepository.ts:96-119 | exactly the stored labels linked to the clip |
| LabelTable.FindLabelsByClipExact | client/electron/main/repository/LabelSqliteRepository.ts:96-119 | an id is among the results iff it is a stored label linked to the clip |
| LabelTable.CreateValid | client/electron/main/repository/LabelSqliteRepository.ts:45-54 | a successful insert keeps the table well formed |
| LabelRepository.LabelSqliteRepository.FindAll | client/electron/main/repository/LabelSqliteRepository.ts:8-23 | returns `LabelTable.FindAll` |
| LabelRepository.LabelSqliteRepository.FindById | client/electron/main/repository/LabelSqliteRepository.ts:25-43 | null exactly for an absent id |
| LabelRepository.LabelSqliteRepository.Create | client/electron/main/repository/LabelSqliteRepository.ts:45-54 | the labels table becomes `LabelTable.Create`, or is unchanged on the key violation |
| LabelRepository.LabelSqliteRepository.Update | client/electron/main/repository/LabelSqliteRepository.ts:56-65 | the labels table becomes `LabelTable.Update` |
| LabelRepository.LabelSqliteRepository.DeleteById | client/electron/main/repository/LabelSqliteRepository.ts:67-70 | labels and associations become `LabelTable.DeleteById` |
| LabelRepository.LabelSqliteRepository.AddLabelToClip | client/electron/main/repository/LabelSqliteRepository.ts:72-81 | the association set becomes `LabelTable.AddLabelToClip` |
| LabelRepository.LabelSqliteRepository.RemoveLabelFromClip | client/electron/main/repository/LabelSqliteRepository.ts:83-87 | the association set becomes `LabelTable.RemoveLabelFromClip` |
| LabelRepository.LabelSqliteRepository.CountLabelsOfClip | client/electron/main/repository/LabelSqliteRepository.ts:89-94 | returns `LabelTable.CountLabelsOfClip` of the stored set |
| LabelRepository.LabelSqliteRepository.FindLabelsByClip | client/electron/main/repository/LabelSqliteRepository.ts:96-119 | returns `LabelTable.FindLabelsByClip` of the stored tables |
| LabelIpc.AddLabelCapped | client/electron/main/ipc/labelIpc.ts:41-50 | refuses with "This clip already has 10 labels (max)." exactly when the clip has 10 or more labels; otherwise the set gains the pair and nothing else |
| LabelIpc.CapPreserved | client/electron/main/ipc/labelIpc.ts:43-48 | adding only through the handler, no clip ever has more than 10 labels |
| LabelIpc.FullClipRefusesExistingLabel | client/electron/main/ipc/labelIpc.ts:43-46 | re-adding a linked label to a full clip is refused, although the insert would have been a no-op |
| LabelIpc.LabelHandlers.LabelsLoad | client/electron/main/ipc/labelIpc.ts:9-12 | answers `findAll` of the labels table |
| LabelIpc.LabelHandlers.LabelsCreate | client/electron/main/ipc/labelIpc.ts:14-23 | inserts only id, name and color and answers success; a stored id is an error |
| LabelIpc.LabelHandlers.LabelsUpdate | client/electron/main/ipc/labelIpc.ts:25-33 | rewrites name and color and answers success |
| LabelIpc.LabelHandlers.LabelsDelete | client/electron/main/ipc/labelIpc.ts:35-39 | deletes the label with its associations and answers success |
| LabelIpc.LabelHandlers.ClipAddLabel | client/electron/main/ipc/labelIpc.ts:41-50 | the association set becomes what `AddLabelCapped` gives; a refusal changes nothing |
| LabelIpc.LabelHandlers.ClipRemoveLabel | client/electron/main/ipc/labelIpc.ts:52-56 | removes that pair and answers success |
| BlockStore.Prepared | client/src/store/blockStore.ts:32-39 | the draft sent to `blocks-create` carries `partial.id ?? nanoid()` and the same defaults as the repository would fill |
| BlockStore.PreparedAgreesWithRepository | client/src/store/blockStore.ts:32-41 | creating from the prepared draft is creating from the partial one with the store's fresh id |
| BlockStore.MergeProps | client/src/store/blockStore.ts:54 | keys of the patch override, keys only in the previous properties are kept, and no other key appears |
| BlockStore.Merge | client/src/store/blockStore.ts:54-60 | each of id, type, content and parent is the patch's when the patch has it and the previous one otherwise; properties are `MergeProps`; the stamps are the previous ones |
| BlockStore.MergeIdempotent | client/src/store/blockStore.ts:54-60 | an empty patch changes nothing; applying a patch twice is applying it once |
| BlockStore.TypeChangeKeepsProperties | client/src/store/blockStore.ts:53-60 | changing only the type keeps id, properties and content |
| BlockStore.ReplaceById | client/src/store/blockStore.ts:64-66 | same length; each entry with the id is replaced, every other entry is kept in place |
| BlockStore.ReplaceKeepsIds | client/src/store/blockStore.ts:64-66 | replacing with a block of the same id keeps the id list; an absent id changes nothing |
| BlockStore.RemoveById | client/src/store/blockStore.ts:71-73 | exactly the blocks with another id remain |
| BlockStore.IdsOfRemove | client/src/store/blockStore.ts:71-73 | the remaining ids are the old ids with every occurrence of the id filtered out, in order |
| BlockStore.LoadedIds | client/src/store/blockStore.ts:26-29 | the loaded list's ids are the table's ids in table order |
| BlockStore.BlockStore.LoadBlocksFromDB | client/src/store/blockStore.ts:26-29 | the list becomes `findAll` of the table and is in step with it |
| BlockStore.BlockStore.CreateBlock | client/src/store/blockStore.ts:31-47 | the table becomes `BlockTable.Create` of the partial block; on success the store reloads and holds the returned id `partial.id ?? nanoid()`; on failure nothing changes |
| BlockStore.BlockStore.UpdateBlock | client/src/store/blockStore.ts:49-67 | an id not in the list changes nothing; otherwise the merged block is written to the table and replaces that entry in place; the list stays in step with the table when the patch keeps the id |
| BlockStore.BlockStore.DeleteBlock | client/src/store/blockStore.ts:69-74 | the row is deleted and every entry with the id leaves the list, the rest kept in order and in step |
| BlockStore.BlockStore.RunBlock | client/src/store/blockStore.ts:76-80 | an unknown id sends nothing; otherwise exactly one `block-run` answer for the found block |
| ClipStore.NewClip | client/src/store/clipStore.ts:40-46 | the new clip has the fresh id, every field of the data as given, the data's favourite flag or `false` when it has none, and no stamps |
| ClipStore.NewClipReadsBack | client/src/store/clipStore.ts:39-51 | the inserted clip reads back in its stored form, and unchanged when it has code and no shortcut |
| ClipStore.MergeClip | client/src/store/clipStore.ts:58 | each field is the patch's when the patch has it and the existing clip's otherwise; stamps unchanged |
| ClipStore.MergeClipLaws | client/src/store/clipStore.ts:58 | an empty patch changes nothing; patching twice is patching once; a favourite toggle changes only the flag |
| ClipStore.ReplaceById | client/src/store/clipStore.ts:62-64 | same length; each matching entry replaced, others kept in place |
| ClipStore.ReplaceKeepsIds | client/src/store/clipStore.ts:62-64 | replacing with a clip of the same id keeps the id list; an absent id changes nothing |
| ClipStore.RemoveById | client/src/store/clipStore.ts:70-72 | exactly the clips with another id remain |
| ClipStore.IdsOfRemove | client/src/store/clipStore.ts:70-72 | the remaining ids are the old ids with the id filtered out, in order |
| ClipStore.LoadedIds | client/src/store/clipStore.ts:33-36 | the loaded list's ids are the table's ids in table order |
| ClipStore.ClipStore.LoadClipsFromDB | client/src/store/clipStore.ts:33-36 | the list becomes `findAll` of the clips table |
| ClipStore.ClipStore.AddClip | client/src/store/clipStore.ts:39-52 | fails exactly when the fresh id is taken; otherwise returns it, inserts the new clip and appends it at the end |
| ClipStore.ClipStore.UpdateClip | client/src/store/clipStore.ts:55-65 | an unknown id changes nothing; otherwise the merged clip is written and replaces that entry in place |
| ClipStore.ClipStore.RemoveClip | client/src/store/clipStore.ts:68-73 | the clip and its associations are deleted and every entry with the id leaves the list |
| ClipStore.ClipStore.SetClips | client/src/store/clipStore.ts:75 | the list is replaced wholesale |
| ClipBlockCard.DeclaredRequired | client/src/components/clips/ClipBlockCard.tsx:52-53 | the action's `requiredBlockTypes` array, or `[]` when absent |
| ClipBlockCard.ActionKind | client/src/components/clips/ClipBlockCard.tsx:54 | `actionType \|\| "copy"` |
| ClipBlockCard.RequiredTypes | client/src/components/clips/ClipBlockCard.tsx:50-58 | `[]` without an action; the declared list when non-empty; `["project_root","selected_path"]` for an empty list and a `copy` action; `[]` for any other action |
| ClipBlockCard.SlotFilledIff | client/src/components/clips/ClipBlockCard.tsx:118-119 | a slot is filled iff at least one child has that type |
| ClipBlockCard.Slots | client/src/components/clips/ClipBlockCard.tsx:115-119 | one slot per required type, in order, each marked filled or not |
| ClipBlockCard.BareActionAsksForCopyInputs | client/src/components/clips/ClipBlockCard.tsx:52-57 | an action with no properties asks for a project root and a selected path |
| ClipBlockCard.OtherActionAsksForNothing | client/src/components/clips/ClipBlockCard.tsx:54-57 | another action kind with no declared list asks for nothing |
| ClipBlockCard.RunRequest | client/src/components/clips/ClipBlockCard.tsx:67-71 | the run callback fires iff a handler is given and the block is a clip, with the block's id |
| ClipHome.ClipBlocks | client/src/components/clips/ClipHome.tsx:47 | exactly the blocks of type `clip` |
| ClipHome.OtherBlocks | client/src/components/clips/ClipHome.tsx:48 | exactly the other blocks |
| ClipHome.SectionsPartition | client/src/components/clips/ClipHome.tsx:47-48 | together the two sections hold every block exactly once |
| ClipHome.DropTargetId | client/src/components/clips/ClipHome.tsx:75 | an id without `clip-` is unchanged; otherwise the first occurrence is removed |
| ClipHome.DropTargetOfDroppable | client/src/components/clips/ClipHome.tsx:75 | the droppable id of a card gives back the card's block id |
| ClipHome.PlanDrop | client/src/components/clips/ClipHome.tsx:68-97 | nothing without a target, on a drop onto itself, or on an unknown id; otherwise the target block and its content with the dragged id appended, planned only when the id is not there already |
| ClipHome.DropKeepsContentDuplicateFree | client/src/components/clips/ClipHome.tsx:92-94 | the old content is kept as a prefix, the dragged id is present, and duplicate-free content stays duplicate-free |
| ClipHome.DropIdempotent | client/src/components/clips/ClipHome.tsx:92-94 | repeating the same drop after it was applied changes nothing |
| ClipHome.ClipHome.HandleDragStart | client/src/components/clips/ClipHome.tsx:61-63 | records the dragged id |
| ClipHome.ClipHome.HandleDragEnd | client/src/components/clips/ClipHome.tsx:68-97 | clears the dragged id; writes the planned content through `updateBlock`, or changes nothing; the store stays in step with the table |
| BlockPropertyForm.UpdateProp | client/src/components/BlockPropertyForm.tsx:41-45 | the key gets the value and every other property is unchanged |
| BlockPropertyForm.SetProp | client/src/components/BlockPropertyForm.tsx:41-45 | the form keeps its type and reports the updated properties |
| BlockPropertyForm.ChangeType | client/src/components/BlockPropertyForm.tsx:34-38 | the type changes and the properties are unchanged |
| BlockPropertyForm.ReportedPropsStoredAsIs | client/src/components/BlockPropertyForm.tsx:41-45 | the store's merge of the reported properties is those properties |
| BlockPropertyForm.ParsePaths | client/src/components/BlockPropertyForm.tsx:108-113 | no parsed path is empty or has surrounding white space |
| BlockPropertyForm.PathsText | client/src/components/BlockPropertyForm.tsx:103-106 | `""` unless `paths` is an array |
| BlockPropertyForm.ShownText | client/src/components/BlockPropertyForm.tsx:103-106 | an array of paths is shown joined with `", "` |
| BlockPropertyForm.EditPaths | client/src/components/BlockPropertyForm.tsx:108-113 | the form's type is kept and `paths` becomes the parsed array |
| BlockPropertyForm.ParseEmptyText | client/src/components/BlockPropertyForm.tsx:108-113 | an empty field parses to no paths |
| BlockPropertyForm.ParseShownPaths | client/src/components/BlockPropertyForm.tsx:103-113 | non-empty, trimmed, comma-free paths survive being shown and parsed back |
| FileExplorer.PreOrder | client/src/components/FileExplorer.tsx:100-109 | the traversal starts with the node itself |
| FileExplorer.PreOrderAllAppend | client/src/components/FileExplorer.tsx:104-108 | siblings are visited in order, one whole subtree after another |
| FileExplorer.ChildSubtreeInPlace | client/src/components/FileExplorer.tsx:100-109 | a node comes first, then the subtrees of its earlier children, the whole subtree of child i, then its later children |
| FileExplorer.Dfs | client/src/components/FileExplorer.tsx:101-109 | pushing the traversal onto the array appends exactly the pre-order of the node |
| FileExplorer.AllPaths | client/src/components/FileExplorer.tsx:100-109 | the array collected from the root is its pre-order |
| FileExplorer.Between | client/src/components/FileExplorer.tsx:113-115 | the slice holds both ends and `\|idxA - idxB\| + 1` paths |
| FileExplorer.RangePaths | client/src/components/FileExplorer.tsx:98-116 | null exactly when there is no tree or either path is absent; otherwise the slice between the first occurrences, holding both paths |
| FileExplorer.RangeSymmetric | client/src/components/FileExplorer.tsx:113-115 | the range does not depend on which end was clicked first and has `\|idxA - idxB\| + 1` paths |
| FileExplorer.GetRangePaths | client/src/components/FileExplorer.tsx:98-116 | returns `RangePaths` |
| FileExplorer.Deselect | client/src/components/FileExplorer.tsx:46-56 | every occurrence of the path goes, every other path stays |
| FileExplorer.NextSelection | client/src/components/FileExplorer.tsx:36-64 | shift with another non-empty anchor: old selection plus range, or unchanged when there is no range; ctrl removes the clicked path when selected and otherwise appends it at the end, other paths untouched; a plain click deselects it or selects only it |
| FileExplorer.ShiftAppendsRange | client/src/components/FileExplorer.tsx:40-45 | the old selection stays in front in its order, then the new paths of the range in range order, each once |
| FileExplorer.CtrlToggleTwice | client/src/components/FileExplorer.tsx:46-52 | ctrl-clicking an unselected path twice restores the selection |
| FileExplorer.SelectionStaysDuplicateFree | client/src/components/FileExplorer.tsx:36-64 | no click makes a duplicate-free selection hold a path twice |
| FileExplorer.FileExplorer.SetRoot | client/src/components/FileExplorer.tsx:24-32 | the tree is replaced; selection and anchor unchanged |
| FileExplorer.FileExplorer.HandleSelectItem | client/src/components/FileExplorer.tsx:36-66 | the selection becomes `NextSelection`, `lastClicked` becomes the clicked path, and a duplicate-free selection stays so |
| ClipActions.CommonPrefix | client/electron/main/clipActions.ts:44-53 | a prefix of both lists that cannot be extended |
| ClipActions.CommonPrefixGreatest | client/electron/main/clipActions.ts:44-53 | every shared prefix is a prefix of it |
| ClipActions.SharedLength | client/electron/main/clipActions.ts:45-52 | the inner loop stops at the length of the common prefix |
| ClipActions.CommonPartsIsPrefix | client/electron/main/clipActions.ts:41-54 | the kept components are a prefix of every path's components |
| ClipActions.CommonPartsLongest | client/electron/main/clipActions.ts:44-53 | every component list that starts every path starts the kept components |
| ClipActions.CommonRoot | client/electron/main/clipActions.ts:39-56 | the working directory for no paths or an empty join; otherwise the joined components |
| ClipActions.FindCommonRoot | client/electron/main/clipActions.ts:39-56 | returns `CommonRoot` |
| ClipActions.RootStartsEveryPath | client/electron/main/clipActions.ts:41-55 | unless it falls back, the root is a leading part of every path |
| ClipActions.SinglePathIsRoot | client/electron/main/clipActions.ts:39-56 | one path is its own root, unless it is empty |
| ClipActions.DisjointTopLevelFallsBack | client/electron/main/clipActions.ts:55 | `"/a"` and `"/b"` give the working directory |
| ClipActions.Extracted | client/electron/main/clipActions.ts:33 | the path followed by `" (extracted)"` |
| ClipActions.ExtractedLines | client/electron/main/clipActions.ts:33 | no paths give `""`; otherwise, for paths without line breaks, the lines of the text are the suffixed paths in input order |
| ClipActions.RunClipAction | client/electron/main/clipActions.ts:12-36 | `copy` gathers the project under `findCommonRoot` of the paths; `txtExtract` writes the extracted text |

## Left out

- Script execution: `new Function` and `createRequire` run foreign JavaScript. The model takes the script's
  outcome from a `ScriptHost` function; what the script does to the outside world is not modelled.
- SQLite, SQL text and JSON: tables are values. `JSON.stringify` and `JSON.parse` are the identity. A stored
  JSON column that fails to parse, which would throw in the source, is not modelled.
- `nanoid()` and the wall clock are parameters: a `generated` id, and a natural-number clock that every write advances.
  ISO timestamp strings and equal timestamps on one millisecond are not modelled. Ties in `ORDER BY created_at`
  keep insertion order.
- The `clips`, `labels` and `clip_labels` tables do not appear in client/electron/main/db.ts. Their repositories are
  modelled as the SQL they run, with `id` as the primary key. The clip and label `findAll` are modelled in insertion order.
- `clip_labels` is modelled as a set of (clip, label) pairs, so (clip_id, label_id) is taken to be its key. No schema in
  the repository declares that key. Without it `INSERT OR IGNORE` would store a duplicate pair on every call, and
  `LabelTable.AddIdempotent` and `LabelTable.AddCount` would not hold.
- The `copy` branch of `runClipAction` reads the project from disk and writes the clipboard. The model returns the
  root it would gather from instead. client/electron/main/combineAllFiles.ts is not part of this model.
- `process.cwd()` and `path.sep` are parameters of `ClipActions`.
- File system access (`read-dir-structure`) is left out. `FileExplorer.FileExplorer.SetRoot` receives the tree it answers with.
- Electron plumbing, windows, tray, updates, shortcuts, i18n and the React rendering of every component are left out.
  Only the list and string rules of the components are modelled.
- Concurrency: every IPC call and store operation is one atomic step. Overlapping `block-run`s and interleaved awaits are
  not modelled.
- The main-process `clips-*` handlers (client/electron/main/ipc/clipIpc.ts:8-32) only forward to the clip repository.
  `ClipStore` calls the repository directly.
- The superseded `clip-run` handlers in client/electron/main/index.ts and client/electron/main/ipc/clipIpc.ts are not
  part of this model.
- ClipBlockCard.DeclaredRequired: a `requiredBlockTypes` value that is present but not an array is treated as `[]`.
  The source would use it as it is.
- BlockPropertyForm.PathsText: items of the array that are not strings are shown as `""`. JavaScript would print
  them with `String(...)`.
- JSON numbers are integers; floating-point property values are not modelled.
- BlockStore.BlockStore.UpdateBlock: a patch that changes the block's id makes the list disagree with the table. The
  source sends the merged block under the new id. `update` then rewrites the row holding that id if there is one
  (another block's row), and changes nothing otherwise. The list is proved to stay in step with the table only
  when the patch keeps the id.
- ClipStore.ClipStore.UpdateClip: the same holds for a patch that changes a clip's id: `update` rewrites another
  clip's row, or nothing.
- Patches that set a required field to `undefined` explicitly are not modelled. A patch field is either absent or a value.
- `BlockStore.BlockPatch`, `ClipStore.ClipPatch` and `ClipStore.ClipData` have no `createdAt` or `updatedAt`. A patch
  that carries stamps, which the source's spread would copy into the list, is not modelled; merged items keep their stamps.
- FileExplorer.FileExplorer.HandleSelectItem: `selected` models the parent's `selectedPaths`. It assumes the parent
  stores every list reported through `onChangeSelected`.
- ClipActions.SharedLength: the inner `while` of `findCommonRoot` is a method of its own, so that its proof stays
  separate from the outer loop's.
