# Cork board store, modelled in Dafny

This project models the board state engine of a spatial note board. Users place pins on a canvas: text notes, images and checklists. They move, resize, tag and stack them, undo and redo their edits, and save named snapshots. The engine is one store record. It holds the live pins, the saved snapshots, a linear undo ledger (`history` with the cursor `historyIndex` and a nominal capacity `maxHistory`), the viewport (zoom and pan), the selected pin and the z-order counter `highestZIndex`.

Every store action is one synchronous copy-on-write transition of that record. Each is modelled as a pure function `Board -> Board`. The values the source takes from `uuidv4`, `Date.now` and `Math.random` are parameters: a fresh `id`, a timestamp `now`, and a palette index `colorIndex` below 8. The source's JSON deep copies become plain value semantics.

Modules:

- `Wrappers`: `Option`, used for `T | undefined` and `T | null`.
- `Seqs`: generic `MapWhere`, `Filter` and `FindFirst`, playing the part of the array `map`, `filter` and `find` the store uses.
- `Types` (src/types/index.ts): the entities. `PinType` has exactly the three variants `Text`, `Image` and `List`. `ListItem`, `Pin` (the source's `type` field is `kind`), `Snapshot` and `Board` are the record types. `PinDraft` is addPin's argument; it has no `id`, `createdAt`, `updatedAt` or `zIndex`, so only the store assigns them. `PinPatch` and `ItemPatch` are the `Partial` records of updatePin and updateListItem. Every field of a `PinPatch` may be supplied, including `id`, `kind` and `zIndex`. On a `Pin`, `tags`, `color` and `zIndex` are mandatory, while `listItems`, `imageUrl`, `imageMinWidth` and `imageMinHeight` are `Option`s.
- `Ledger`: the history slice, the uncapped commit the actions inline, the capped `saveHistory` commit, and the cursor predicates.
- `Store` (src/store/boardStore.ts): every action.
- `Page` (src/app/page.tsx): the per-type draft policy of `handleAddPin`, and the keydown handler's undo and redo shortcuts.
- `Actions`: the actions as a datatype, one step function `Apply`, runs of steps, and the invariants the steps keep.
- `HistoryProps` and `BoardProps`: lemmas about the ledger and about the board.

Several behaviours differ from what one might assume; the model follows the code:

- The 50-entry cap is never applied. Only `saveHistory` applies it, and no action calls `saveHistory`. Every action inlines an uncapped commit, so the ledger is unbounded. `HistoryProps.LedgerOutgrowsCap` shows 51 entries after 50 commits.
- Ending a drag or a resize creates no undo step. Pin.tsx only flushes storage at mouse-up. `movePin` and `resizePin` never touch the ledger.
- `loadSnapshot` sets the counter to the largest zIndex of the restored pins, so it can lower the counter. A later undo can then bring back pins stacked above the counter. `BoardProps.LoadSnapshotCanLowerCounter` shows a new pin stacked below an older one.
- `clearBoard` resets to `createInitialState`, and that state includes an empty snapshot list. The in-memory snapshots are gone after a clear; only the stored copy survives.
- The store checks nothing. Empty names and empty tags are accepted. Unknown ids are still committed by updatePin, deletePin, addListItem and deleteListItem. Only the UI trims and guards input.
- `Valid` requires `historyIndex < |history|`. It holds initially, and every action keeps it (`Actions.Apply`, `Actions.Run`). redo needs nothing of its caller, because its guard `historyIndex < history.length - 1` keeps the entry it reads inside the ledger for any cursor. undo requires only `historyIndex <= |history|`: a cursor further out would make it read an entry that does not exist.

## Model

| member | source | states |
|---|---|---|
| `Store.InitialState` | src/store/boardStore.ts:21-32 | the initial store has a single empty ledger entry with the cursor on it, so neither undo nor redo is possible; no pins, no snapshots, no selection, counter 0, capacity 50, zoom 1 at pan (0, 0) |
| `Ledger.Kept` | src/store/boardStore.ts:40 | `history.slice(0, historyIndex + 1)` is the prefix holding every entry up to the cursor (the whole ledger when the cursor is past the end) |
| `Ledger.Commit` | src/store/boardStore.ts:69-71 | an inlined commit keeps the entries up to the cursor, appends the new entry, and evicts nothing |
| `Ledger.CappedCommit` | src/store/boardStore.ts:38-51 | saveHistory's commit: the cursor is the last index; with capacity at least 1 the new entry is last; a ledger within capacity stays within it; the result is kept-plus-new with exactly its oldest entry dropped when that exceeds the capacity, and kept-plus-new otherwise |
| `Store.SaveHistory` | src/store/boardStore.ts:38-51 | the same guarantees stated on the store record: the cursor is the last index for every capacity; with capacity at least 1 the newest entry is last; a ledger within capacity stays within it; exactly one oldest entry is dropped when kept-plus-new exceeds the capacity |
| `Store.CommitPins` | src/store/boardStore.ts:69-77 | the commit every committing action inlines: pins set, ledger truncated after the old cursor and extended by the pins, cursor on the newest entry, nothing to redo, no other field changed |
| `Store.CanUndo` | src/store/boardStore.ts:343-346 | for a cursor inside the ledger, true exactly when an entry exists just before the cursor |
| `Store.CanRedo` | src/store/boardStore.ts:348-351 | true exactly when an entry exists just after the cursor |
| `Store.MaxZ` | src/store/boardStore.ts:381-384 | the `reduce` in loadSnapshot is at least 0, bounds every pin's zIndex, and is either 0 or some pin's zIndex |
| `Store.AddPin` | src/store/boardStore.ts:53-82 | appends exactly one pin after the unchanged old pins, with the given id, zIndex = counter + 1, both timestamps = now and the draft's fields; an empty colour becomes the palette colour, an absent tag list becomes empty; the counter becomes the new zIndex, the pin is selected, the result is committed, nothing else changes |
| `Store.UpdatePin` | src/store/boardStore.ts:84-103 | only pins with the id change, each to the merge of itself with the patch (no field protected) plus a fresh updatedAt; committed even when no pin matches |
| `Store.DeletePin` | src/store/boardStore.ts:105-121 | exactly the pins with other ids remain, in their original order and with their multiplicities; an unknown id keeps the pins; the selection is cleared iff it was the deleted id; committed |
| `Store.MovePin` | src/store/boardStore.ts:123-131 | only pins with the id change, and only in x, y and updatedAt; the ledger, counter and everything else are untouched |
| `Store.ResizePin` | src/store/boardStore.ts:133-153 | an unknown id changes nothing; otherwise each dimension is the larger of the request and the first matching pin's floor (imageMinWidth or 150, imageMinHeight or 100, with 0 falling back); only matching pins change, in width, height and updatedAt; no commit |
| `Store.BringToFront` | src/store/boardStore.ts:155-165 | the counter rises by one even when no pin matches; matching pins take it as their zIndex; nothing else changes |
| `Store.SelectPin` | src/store/boardStore.ts:167-172 | the selection becomes the argument unchecked; a non-empty id is also brought to front (counter + 1, only its pins restacked); null or the empty string changes nothing else; pins, counter and selection are the only fields that can change |
| `Store.DuplicatePin` | src/store/boardStore.ts:174-185 | an unknown id changes nothing; otherwise one copy of the first matching pin is appended: every field of the source except a new id, x and y offset by 30, the next zIndex and both timestamps set to now; the source's colour is kept when non-empty and replaced by the palette colour when empty; the copy is selected and committed; only pins, ledger, counter and selection change |
| `Store.AddListItem` | src/store/boardStore.ts:188-217 | every pin with the id, of any type, gets the unchecked item appended to its list (an absent list counts as empty) and a fresh updatedAt; other pins untouched; committed even when no pin matches |
| `Store.UpdateListItem` | src/store/boardStore.ts:219-235 | in pins with the id, items with the item id take the patch and all others stay; an absent list stays absent; updatedAt refreshed; no commit |
| `Store.DeleteListItem` | src/store/boardStore.ts:237-260 | in pins with the id, exactly the items with other ids remain, in their original order and with their multiplicities; an absent list stays absent; committed |
| `Store.ToggleListItem` | src/store/boardStore.ts:262-278 | in pins with the id, items with the item id flip `completed`; everything else is kept; no commit |
| `Store.AddTag` | src/store/boardStore.ts:281-291 | afterwards every matching pin holds the tag; a pin that already held it is untouched; one that lacked it gets it appended and a fresh updatedAt; other pins and the ledger are untouched |
| `Store.RemoveTag` | src/store/boardStore.ts:293-303 | matching pins hold no occurrence of the tag and keep every other tag in order and with its multiplicity; only tags and updatedAt change |
| `Store.SetZoom` | src/store/boardStore.ts:306-310 | the zoom always lands in [0.25, 3]; it is the identity inside that range and saturates at each end; nothing else changes |
| `Store.SetPan` | src/store/boardStore.ts:312-315 | sets the pan offset and changes no other field |
| `Store.ResetView` | src/store/boardStore.ts:317-320 | zoom 1 (inside the clamp range) at pan (0, 0); no other field changes |
| `Store.Undo` | src/store/boardStore.ts:323-331 | a no-op at the first entry; otherwise the cursor moves back exactly one, the pins become that entry, the selection is cleared and, for a cursor inside the ledger, redo becomes possible; only pins, cursor and selection ever change, and a cursor inside the ledger stays inside |
| `Store.Redo` | src/store/boardStore.ts:333-341 | a no-op at the last entry; otherwise the cursor moves forward exactly one, the pins become that entry, the selection is cleared and undo becomes possible; only pins, cursor and selection ever change; for any cursor, the entry read lies inside the ledger |
| `Store.SaveSnapshot` | src/store/boardStore.ts:354-369 | appends exactly one snapshot (id, name, a copy of the live pins, now) after the unchanged old ones; pins and ledger untouched |
| `Store.LoadSnapshot` | src/store/boardStore.ts:371-396 | an unknown id is a no-op; otherwise the first matching snapshot's pins become live and are committed, the counter is their largest zIndex (0 floor) and bounds them all, and the selection is cleared |
| `Store.DeleteSnapshot` | src/store/boardStore.ts:398-406 | exactly the snapshots with other ids remain, in their original order and with their multiplicities; nothing else changes |
| `Store.RenameSnapshot` | src/store/boardStore.ts:408-418 | snapshots with the id change their name and nothing else; the others are untouched |
| `Store.ClearBoard` | src/store/boardStore.ts:464-471 | from any store: no pins, no snapshots, ledger `[[]]` with nothing to undo or redo, zoom 1, pan 0, no selection, counter 0 |
| `Page.DraftFor` | src/app/page.tsx:73-108 | text drafts are 250×180 and empty; list drafts are 250×200, titled 'New Checklist', with an empty list; image drafts take width max(w,200), height max(h,150)+60, floors w and h+60; an image request without data yields none; every draft has colour '' and no tags and already meets the resize floor |
| `Page.HandleAddPin` | src/app/page.tsx:62-113 | adds nothing for an image request without data; otherwise appends one pin of the requested kind at the given position carrying the draft's size, content, list and image fields, with a palette colour, no tags, the next zIndex, both timestamps now and a size at or above its resize floor; the pin is selected and committed, and only pins, ledger, counter and selection change |
| `Page.HandleKeyDown` | src/app/page.tsx:26-55 | keys typed into a text field do nothing; Ctrl/Cmd+Z without Shift yields exactly the store's undo (a step back only when undo is possible); Ctrl/Cmd+Y and Ctrl/Cmd+Shift+Z yield exactly the store's redo; other keys leave the store alone; the ledger never changes; the default is suppressed for z, y and s chords, and s opens the snapshot panel |
| `Actions.Apply` | src/types/index.ts:48-90 | every action keeps the cursor inside the ledger, and only clearBoard changes the capacity |
| `Actions.Run` | src/types/index.ts:48-90 | every sequence of actions keeps the cursor inside the ledger |
| `Actions.ReachableIsValid` | src/store/boardStore.ts:21-32 | every store reachable from the initial state has its cursor inside the ledger |
| `Actions.CommittingActionsCommit` | src/store/boardStore.ts:84-121 | addPin, updatePin, deletePin, addListItem and deleteListItem keep the entries up to the cursor, append the live pins as the last entry, and leave nothing to redo |
| `Actions.LiveEditsKeepLedger` | src/store/boardStore.ts:123-165 | move, resize, bring-to-front, select, list-item toggle and update, tag, viewport and snapshot-list actions leave the ledger and cursor unchanged |
| `Actions.PinActionsKeepSnapshots` | src/store/boardStore.ts:354-418 | only the snapshot actions and clearBoard change the snapshot list |
| `Actions.CounterNeverDecreases` | src/store/boardStore.ts:155-165 | no action except loadSnapshot and clearBoard lowers the counter; addPin and bringToFront raise it by exactly one |
| `Actions.RunCounterNeverDecreases` | src/store/boardStore.ts:53-82 | over any run without loadSnapshot and clearBoard the counter does not decrease |
| `Actions.CounterCeilingPreserved` | src/store/boardStore.ts:155-165 | if every live and ledger-held pin sits at or below the counter, every action except updatePin and loadSnapshot keeps it so |
| `Actions.RunKeepsCounterCeiling` | src/store/boardStore.ts:53-82 | the same ceiling holds over any run without updatePin and loadSnapshot |
| `HistoryProps.CursorPredicatesMatchMoves` | src/store/boardStore.ts:343-351 | canUndo holds iff the cursor is above 0 iff undo moves; canRedo holds iff the cursor is below the last entry iff redo moves |
| `HistoryProps.UndoThenRedo` | src/store/boardStore.ts:323-341 | when undo is possible, undo then redo returns to the original cursor with the pins of that entry; ledger and counter unchanged |
| `HistoryProps.RedoThenUndo` | src/store/boardStore.ts:323-341 | when redo is possible, redo then undo returns to the original cursor with the pins of that entry |
| `HistoryProps.UndoTimes` | src/store/boardStore.ts:323-331 | k undos with k at most the cursor move it back exactly k and load that entry; the ledger and the counter are untouched |
| `HistoryProps.RedoTimes` | src/store/boardStore.ts:333-341 | k redos within the ledger move the cursor forward exactly k and load that entry |
| `HistoryProps.UndoRedoRoundTrip` | src/store/boardStore.ts:323-341 | after k ≥ 1 undos redo is possible, and k redos restore the original cursor and its entry's pins |
| `HistoryProps.CommitAfterUndoDiscardsRedo` | src/store/boardStore.ts:92-100 | a committing action after k undos leaves the first entries up to the new cursor plus the new pins, and nothing to redo |
| `HistoryProps.CommitsGrowLedger` | src/store/boardStore.ts:69-77 | from a cursor at the newest entry, n committing actions add exactly n entries and keep the cursor on the newest |
| `HistoryProps.LedgerOutgrowsCap` | src/store/boardStore.ts:26 | fifty committing actions from the initial state leave 51 entries, more than `maxHistory` |
| `HistoryProps.SaveHistoryRespectsCap` | src/store/boardStore.ts:38-51 | saveHistory on a ledger within capacity yields between 1 and `maxHistory` entries, the new pins last, the cursor on them |
| `HistoryProps.SaveHistoryEvictsOnlyOne` | src/store/boardStore.ts:42-44 | on an over-capacity ledger with the cursor on its newest entry, saveHistory drops only the oldest entry, so the ledger stays as long and still over capacity |
| `BoardProps.AddTagIdempotent` | src/store/boardStore.ts:281-291 | adding a tag twice equals adding it once, and a tag that was absent is present exactly once |
| `BoardProps.RemoveTagUndoesAddTag` | src/store/boardStore.ts:293-303 | removing a tag just added to pins that lacked it restores every pin except updatedAt |
| `BoardProps.ToggleTwiceRestores` | src/store/boardStore.ts:262-278 | toggling the same item twice restores every pin except updatedAt, and the rest of the store |
| `BoardProps.NewPinIsOnTop` | src/store/boardStore.ts:53-82 | when every pin sits at or below the counter, the added pin is stacked strictly above all existing pins and the bound still holds |
| `BoardProps.BringToFrontIsOnTop` | src/store/boardStore.ts:155-165 | under the same bound, the target is stacked strictly above every other pin afterwards |
| `BoardProps.LoadSnapshotCanLowerCounter` | src/store/boardStore.ts:381-390 | save an empty snapshot, add two pins, load the snapshot: the counter drops from 2 to 0; undo brings back pins above the counter; the next pin gets zIndex 1, below an existing 2 |
| `BoardProps.ResizeFloorExample` | src/store/boardStore.ts:133-153 | an image pin with floors 200×260 asked for 50×50 is 200×260 |
| `BoardProps.ResizeIdentityAboveFloor` | src/store/boardStore.ts:133-153 | a request at or above both floors is taken exactly |
| `BoardProps.SetZoomIdempotent` | src/store/boardStore.ts:306-310 | clamping a zoom twice equals clamping it once |
| `BoardProps.AddDeleteKeepSelection` | src/store/boardStore.ts:105-121 | after addPin the selection names an existing pin; deletePin never leaves the selection naming a removed pin |
| `BoardProps.SelectPinDoesNotCheck` | src/store/boardStore.ts:167-172 | selecting an unknown id leaves a selection that names no pin |
| `BoardProps.StoreDoesNotValidate` | src/types/index.ts:51 | an empty snapshot name and an empty tag are accepted, and an updatePin patch can overwrite the target's id, type and zIndex |
| `BoardProps.FirstSnapshotStable` | src/store/boardStore.ts:373 | the first snapshot with an id stays first when nothing at or before it changes its id |
| `BoardProps.HoldsSnapshotPreserved` | src/store/boardStore.ts:354-418 | every action except deleteSnapshot and clearBoard keeps the first snapshot with an id, and its pins, in place |
| `BoardProps.RunHoldsSnapshot` | src/store/boardStore.ts:354-418 | the same over any run of such actions |
| `BoardProps.SnapshotIsolation` | src/store/boardStore.ts:354-396 | save under a fresh id, run any actions except deleteSnapshot and clearBoard, load: the live pins are exactly those saved |
| `BoardProps.ClearBoardForgetsSnapshots` | src/store/boardStore.ts:464-471 | after clearBoard the snapshot list is empty, loading a snapshot saved before it is a no-op, and there is nothing to undo |
| `BoardProps.RenameKeepsLoad` | src/store/boardStore.ts:408-418 | renaming a snapshot does not change the pins that loading any id makes live |
| `BoardProps.NoteAndChecklistSession` | src/store/boardStore.ts:53-103 | a note gets zIndex 1 and a checklist 2; after the note's edit, one undo restores its empty content, a second leaves only the note, and two redos restore the edited note and the checklist |

## Left out

- `loadFromStorage`, `saveToStorage` and the `localStorage` writes and removals in the snapshot actions and `clearBoard` are storage I/O. They are not modelled. The JSON round trips become value copies.
- `uuidv4`, `Date.now` and `Math.random` are foreign. They are parameters. addPin reads the clock twice, and the model uses one `now` for both timestamps.
- Pointer and viewport arithmetic is floating point and tied to the DOM: drag and resize deltas, zoom toward the cursor, context-menu coordinates, and the default position from the window size. `Page.HandleAddPin` takes the position as an argument. Coordinates and sizes are reals; NaN and the rounding of JavaScript numbers are not modelled.
- React rendering, component state, dialogs and FileReader image loading are not part of the core. The Toolbar's 400-pixel clamp on image sizes is a caller detail. Pin.tsx calling `bringToFront` after `selectPin` is a caller detail too. The Ctrl/Cmd+S branch is modelled only as the `openSnapshots` flag.
- zustand's `create`, `set` and `get` plumbing is not modelled. Each action is one atomic transition.
- A `PinPatch` cannot write `undefined` into a mandatory pin field. Only the optional fields can be cleared.
- `Page.HandleKeyDown` compares `e.key` exactly as the source does. Whether a browser reports "z" or "Z" while Shift is held is outside the model.
