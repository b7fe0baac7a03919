# coc-explorer: action menu, bookmark store and BufEnter gate

This project models three parts of the coc-explorer extension for coc.nvim
and proves properties about them.

- **Action-menu composer** (`CodeActions`, code_actions.dfy). For the current
  explorer source, `provideCodeActions` builds the list of
  `explorer.doCodeAction` commands shown in the code-action menu. It drops the
  `actionMenu` action and sorts the registered actions by name (twice). For
  each action it emits one base entry and one entry per normalised sub-menu;
  each entry's title shows its bound key. Finally it sorts all entries by
  descending recency score (`score` over the most-recently-used list). Every
  step is a function. The ranking is proved sorted, a permutation of the
  emitted entries, and stable.
- **Bookmark database** (`BookmarkStore`, bookmark_db.dfy). `BookmarkDB` keeps
  a JSON document in one file and addresses it by dotted keys.
  - The document is a tree of objects and leaves.
  - The file system is two fields: the directory flag and what is at the file
    path.
  - `writes` records every document handed to the file writer.
  - `fetch`, `exists`, `push` and `delete` are methods with the source's
    loops, each proved against a path semantics (`Lookup`, `Store`, `Remove`)
    whose properties are lemmas.
- **BufEnter gate** (`BufEnterEvents`, buf_enter.dfy). The module-global
  `stopBufEnter` flag and `skipBufnrQueue` become the fields of the class
  `BufEnterGate`. Its methods are:
  - the listener body installed by `onBufEnter`;
  - `skipOnBufEnter`;
  - `avoidOnBufEnter`, which runs a block given as a script of steps: fire
    BufEnter, skip buffer numbers, a nested block, or throw.

  Each method is proved equal to a function of the gate's state (`Enter`,
  `Exec`, `Avoid`), and the lemmas are stated about those functions.

`Common` (common.dfy) holds `Option` and `IndexOf`, the model of
`Array.prototype.indexOf` used by both `score` and the skip queue.

## Model

| member | source | states |
|---|---|---|
| Common.IndexOf | src/util/events.ts:15 | the result is -1 exactly when the value is absent; otherwise it is a position holding the value with no earlier occurrence |
| Common.IndexOfBefore | src/actions/codeActionProider.ts:15 | the first occurrence of the value at position i lies at or before i |
| CodeActions.Score | src/actions/codeActionProider.ts:14-17 | -1 exactly when the key is not in the list; otherwise a value in 1..len, counted from the end, that points at the key's first occurrence |
| CodeActions.ScoreOrder | src/actions/codeActionProider.ts:14-17 | an earlier (more recent) key scores strictly higher than a later one, which scores higher than any absent key |
| CodeActions.NameLeTotal | src/actions/codeActionProider.ts:45 | the name comparison orders any two names |
| CodeActions.NameLeAntisymmetric | src/actions/codeActionProider.ts:45 | two names that compare both ways are equal |
| CodeActions.NameLeTransitive | src/actions/codeActionProider.ts:45 | the name comparison is transitive |
| CodeActions.InsertByName | src/actions/codeActionProider.ts:45 | inserting into a name-sorted list gives a name-sorted list holding exactly one more occurrence of the element |
| CodeActions.SortByName | src/actions/codeActionProider.ts:45 | the result is sorted by name and is a permutation of the input |
| CodeActions.SortByNameSorted | src/actions/codeActionProider.ts:46 | sorting a list that is already sorted by name returns it unchanged |
| CodeActions.SortByNameIdempotent | src/actions/codeActionProider.ts:45-46 | the second sort by name changes nothing |
| CodeActions.WithoutActionMenu | src/actions/codeActionProider.ts:44 | an action is kept exactly when it is registered and not named `actionMenu` |
| CodeActions.MenuCommands | src/actions/codeActionProider.ts:63-81 | one sub-menu entry per normalised menu, in declaration order |
| CodeActions.InsertByScore | src/actions/codeActionProider.ts:86 | inserting into a list sorted by descending score keeps it sorted, with one more occurrence of the element |
| CodeActions.SortByScore | src/actions/codeActionProider.ts:86 | the result is sorted by descending score and is a permutation of the input |
| CodeActions.InsertByScoreStable | src/actions/codeActionProider.ts:86 | among entries of one score, an inserted entry goes in front of the entries already there |
| CodeActions.SortByScoreStable | src/actions/codeActionProider.ts:86 | entries with equal score keep their relative order (the sort is stable) |
| CodeActions.NoContextNoEntries | src/actions/codeActionProider.ts:28-35 | with no explorer, or no current source, the menu is empty |
| CodeActions.CommandsOfShape | src/actions/codeActionProider.ts:47-84 | every entry of an action is either its base entry, with arguments `[name, name, () => []]`, or the entry of one of its menus, named `action:args` with arguments `[fullName, actionName, menu producer]`; either way it invokes `explorer.doCodeAction`, its title is `name [key]` with the visual key before the normal key, and its score is the recency of its name |
| CodeActions.FlattenMembers | src/actions/codeActionProider.ts:85 | an entry is in the flattened list exactly when it is an entry of one of the actions |
| CodeActions.ByNameMembers | src/actions/codeActionProider.ts:43-46 | an action reaches the map step exactly when it is registered and not `actionMenu` |
| CodeActions.EntriesComeFromRegistry | src/actions/codeActionProider.ts:43-86 | every offered entry is an entry, of the shape above, of a registered action other than `actionMenu` |
| CodeActions.OfferedIfEmitted | src/actions/codeActionProider.ts:47-86 | every entry produced by the map step is offered |
| CodeActions.RegistryEntriesOffered | src/actions/codeActionProider.ts:43-86 | every registered action other than `actionMenu` has its base entry and all its menu entries offered |
| CodeActions.FullNameNotActionMenu | src/actions/codeActionProider.ts:66 | a sub-menu entry's name `action:args` is never `actionMenu` |
| CodeActions.NoActionMenuEntry | src/actions/codeActionProider.ts:44 | no offered entry is named `actionMenu`, whatever the registry holds |
| CodeActions.EntryCountInsert | src/actions/codeActionProider.ts:45 | inserting an action by name adds exactly its own entry count |
| CodeActions.EntryCountSort | src/actions/codeActionProider.ts:45-46 | sorting by name does not change the number of entries |
| CodeActions.FlattenLength | src/actions/codeActionProider.ts:47-85 | the flattened list has one entry per action plus one per menu |
| CodeActions.EntryCountOfMenu | src/actions/codeActionProider.ts:43-86 | the menu's length is the sum, over actions other than `actionMenu`, of 1 plus the number of menus |
| CodeActions.MenuRanking | src/actions/codeActionProider.ts:43-86 | the menu is sorted by descending score and is a permutation of the entries emitted in name order; entries of equal score keep that emission order |
| CodeActions.RankThreeActions | src/actions/codeActionProider.ts:43-86 | with one recently used action and two unused ones, the recent one comes first and the unused ones follow in name order |
| CodeActions.RecentThenAlphabetical | src/actions/codeActionProider.ts:43-86 | registry `expand, open, delete` with MRU `[open]` gives `open` (score 1), `delete` (-1), `expand` (-1) |
| BookmarkStore.Split | src/source/sources/bookmark/util/db.ts:27 | a key splits into at least one segment, none of which contains a dot |
| BookmarkStore.JoinSplit | src/source/sources/bookmark/util/db.ts:27 | joining the segments with dots gives the key back |
| BookmarkStore.SplitJoin | src/source/sources/bookmark/util/db.ts:52 | dot-free segments are recovered by splitting their join |
| BookmarkStore.Child | src/source/sources/bookmark/util/db.ts:29 | a segment is defined exactly on an object that has that field |
| BookmarkStore.LookupSnoc | src/source/sources/bookmark/util/db.ts:28-33 | following one more segment is one more step from where the shorter path ended |
| BookmarkStore.LookupMissingPrefix | src/source/sources/bookmark/util/db.ts:29-31 | once a prefix of the path is missing, the whole path is missing |
| BookmarkStore.DescendSnoc | src/source/sources/bookmark/util/db.ts:66-71 | the push cursor after one more segment is that segment's field, or `{}` when the field is missing |
| BookmarkStore.StoreThenLookup | src/source/sources/bookmark/util/db.ts:59-72 | after a successful push, the key's path leads to the pushed data |
| BookmarkStore.StoreFailsOnLeaf | src/source/sources/bookmark/util/db.ts:59-71 | push fails exactly when some proper prefix of the path leads to a value that is not an object |
| BookmarkStore.StoreThroughLeaf | src/source/sources/bookmark/util/db.ts:60-62 | when the push cursor reaches a non-object, the store fails |
| BookmarkStore.StoreFrame | src/source/sources/bookmark/util/db.ts:59-72 | push leaves unchanged every path that parts ways with the key (neither a prefix nor an extension of it) |
| BookmarkStore.LookupEmpty | src/source/sources/bookmark/util/db.ts:67 | a freshly created `{}` holds no path |
| BookmarkStore.StoreCreatesIntermediates | src/source/sources/bookmark/util/db.ts:66-68 | every missing intermediate segment is created as an object whose only field is the next segment |
| BookmarkStore.RemoveIffPresent | src/source/sources/bookmark/util/db.ts:80-90 | delete removes something exactly when every segment of the key is present |
| BookmarkStore.RemoveMissing | src/source/sources/bookmark/util/db.ts:81-82 | a missing segment on the path means nothing is removed |
| BookmarkStore.RemoveEffect | src/source/sources/bookmark/util/db.ts:84-85 | after delete the path is gone, and the parent object has lost exactly the last segment |
| BookmarkStore.RemoveFrame | src/source/sources/bookmark/util/db.ts:80-90 | delete leaves unchanged every path that parts ways with the key |
| BookmarkStore.LoadedFallsBack | src/source/sources/bookmark/util/db.ts:8-20 | load gives `{}` when the directory is missing or the file is absent, unreadable or unparsable, and the stored document otherwise |
| BookmarkStore.BookmarkDB.constructor | src/source/sources/bookmark/util/db.ts:6 | the database starts over the given file state, with nothing written |
| BookmarkStore.BookmarkDB.Load | src/source/sources/bookmark/util/db.ts:8-20 | returns the document as read from the current file state |
| BookmarkStore.BookmarkDB.WriteFile | src/source/sources/bookmark/util/db.ts:63 | a write succeeds exactly when the directory exists and the path is not a non-regular file; the file then holds the document, and every attempt is recorded |
| BookmarkStore.BookmarkDB.Fetch | src/source/sources/bookmark/util/db.ts:22-35 | the whole document for the empty key; otherwise the value at the key's path, or nothing as soon as a segment is missing |
| BookmarkStore.BookmarkDB.Exists | src/source/sources/bookmark/util/db.ts:37-47 | true exactly when every segment of the key's path is present; for a non-empty key this is exactly when Fetch returns a value, and for the empty key it checks the field `""` |
| BookmarkStore.BookmarkDB.Push | src/source/sources/bookmark/util/db.ts:49-73 | writes the loaded document with the data stored at the key's path exactly once; a non-object on the path throws before anything is written |
| BookmarkStore.BookmarkDB.Delete | src/source/sources/bookmark/util/db.ts:75-91 | when a segment is missing nothing is written; otherwise the document without the last segment is written exactly once |
| BookmarkStore.BookmarkDB.Clear | src/source/sources/bookmark/util/db.ts:93-99 | writes `{}` only when the path holds a regular file; otherwise nothing changes |
| BufEnterEvents.Enter | src/util/events.ts:11-25 | while stopped the event is dropped and the queue untouched; a queued buffer number loses exactly its first occurrence and is not forwarded; any other number is forwarded with the queue unchanged |
| BufEnterEvents.ExecError | src/util/events.ts:36-39 | a block ends with the first error it or a nested block throws, whatever the gate does |
| BufEnterEvents.AvoidResult | src/util/events.ts:32-43 | the flag is false after the block on both exits, and the result is the block's value or the very error it threw |
| BufEnterEvents.StoppedExec | src/util/events.ts:12-14 | while the flag is set, a block without nested blocks forwards nothing, the queue grows only by what is skipped before the first throw, and the run ends with that throw's error, if any |
| BufEnterEvents.AvoidDropsEvents | src/util/events.ts:32-43 | a block without nested blocks, whether it returns or throws, forwards no event, leaves the flag false and the queue extended by what it skipped before throwing, and returns its value or rethrows its error |
| BufEnterEvents.NestedExitReopensGate | src/util/events.ts:32-43 | the flag is a boolean, not a counter: after a nested block returns, an event later in the enclosing block is forwarded |
| BufEnterEvents.QueuedOccurrencesSwallowEvents | src/util/events.ts:15-24 | with k occurrences of a buffer queued, k events for it are dropped, the next one is forwarded, and no occurrence remains |
| BufEnterEvents.SkipOnceThenForward | src/util/events.ts:15-30 | skipping a buffer once drops the next event for it and forwards the following one |
| BufEnterEvents.BufEnterGate.constructor | src/util/events.ts:5-6 | the gate starts open with an empty queue |
| BufEnterEvents.BufEnterGate.OnBufEnter | src/util/events.ts:11-25 | the listener changes the gate and forwards as `Enter` says |
| BufEnterEvents.BufEnterGate.SkipOnBufEnter | src/util/events.ts:28-30 | appends the numbers to the queue in order and leaves the flag alone |
| BufEnterEvents.BufEnterGate.AvoidOnBufEnter | src/util/events.ts:32-43 | sets the flag, runs the block and clears the flag, as `Avoid` says |
| BufEnterEvents.BufEnterGate.RunBlock | src/util/events.ts:36 | runs a block's steps in order until one throws, as `Exec` says |

## Left out

- The throttle in `onBufEnter` and its timing are not modelled. The model's output is the sequence of buffer numbers handed to the throttled callback. The debug `showMessage` and its counter are display only.
- CodeActions.SortByName: `localeCompare` collation is replaced by ordinal order on characters. The proofs need only a total order, and the collation tables are not part of the source.
- `ActionMenu.getNormalizeMenus`, `keyMapping.getReversedMappings`, `actionListMru.load` and the `menu.actionArgs()` producers are opaque inputs. The model takes the normalised menus, the reverse mappings and the MRU list as given values, and represents a producer by a handle.
- The registry `Map` is a sequence of entries in insertion order. The model does not require the names to be distinct, which a `Map` guarantees; no lemma depends on it.
- File I/O (`fsStat`, `fsReadFile`, `fsWriteFile`, `fsMkdirp`) and `JSON.parse`/`JSON.stringify` are not modelled. The file is a value with four states, and the document is a tree of objects and opaque leaves.
- BookmarkStore.BookmarkDB.Fetch: a leaf has no properties in the model. JavaScript would read string indices or `length` through a string leaf, and would throw on a `null` leaf.
- BookmarkStore.BookmarkDB.Push: the `|| {}` fallback for a falsy root (`0`, `""`, `false`, `null`) is not modelled. A leaf root throws like any other leaf on the path.
- The `obj === null` branch of `push` (src/source/sources/bookmark/util/db.ts:54-58) is dead code after `|| {}` and is not modelled.
- `push` and `delete` change the loaded tree in place. The model rebuilds the path from the changed node up to the root instead. Aliasing between the cursor and the root is therefore not modelled; only the resulting document is.
- BookmarkStore.Child: a field is present only when the object holds it as its own property, in Fetch, Exists, Push and Delete alike. The source's `typeof obj[part] === 'undefined'` test also finds properties every JavaScript object inherits (`constructor`, `toString`, `__proto__`): on `{}`, `fetch("constructor")` returns the `Object` function and `exists("constructor")` is true, and `push("toString.x", d)` sets `x` on the built-in `toString` function and writes `{}`. JSON arrays have no counterpart in the document type, although they are objects indexable by `"0"`. A `null` leaf makes `exists("a.b")` and `delete("a.b")` on `{a: null}` throw, where the model returns false or does nothing.
- BufEnterEvents.Enter: the model has exactly one listener. Every call of `onBufEnter` (src/util/events.ts:9-11) registers another listener over the same flag and queue. With two listeners, one queued number is consumed by the first and the second forwards the same event. QueuedOccurrencesSwallowEvents and SkipOnceThenForward hold for one listener only.
- async/await is not modelled: each awaited call is a plain call, and there is no interleaving.
- src/floating/floatingWindow.ts, src/source/sources/buffer/buffer-actions.ts and src/source/sources/file/fileColumnRegistrar.ts are not part of this model. They are editor UI, RPC and configuration plumbing.
