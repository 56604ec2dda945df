# Editable paginated grid: a Dafny model

This project models the logic of a React demo screen: a paginated table of
person records whose cells can be edited in place, plus a "Reset Data" button.
Everything in it lives in `src/App.tsx`. The model covers four parts:

- **Records** (`records.dfy`): a record is a map from field name to a
  `Value` (text or integer). `Columns` is the static two-level column tree.
  `UpdateRows` is the new row list that `updateMyData` builds with `map` and
  an object spread.
- **RecordStore** (`store.dfy`): the page container's state cells are
  `data`, `originalData` and `skipPageReset`. They appear twice: as the class
  `App`, whose handlers overwrite its fields, and as the value `Store` with
  its `Event` traces. Each `App` method is specified by the matching `Step`
  on `Store`. The lemmas about traces state:
  - what a reset restores;
  - that the snapshot never changes;
  - how the one-shot page-reset suppression flag evolves. The table receives
    it as `autoResetPage: !skipPageReset`.
- **CellEditor** (`cell.dfy`): the class `EditableCell` holds the draft
  `value` and the last `initialValue` it received. Its methods are
  `OnChange`, `OnBlur` and `ReceiveValue`. `ReceiveValue` is the effect keyed
  on `initialValue`. The class is specified by the value `Cell` and the
  functions `Input`, `Blur` and `Resync`.
- **Pagination** (`pagination.dfy`): the page numbers the pagination bar
  computes before calling the table library's `gotoPage`, and the list of
  offered page sizes.

React runs state updates and effects on its own schedule. Here each of them is
an explicit, sequential step:
- `App.DataChanged` / `DataObserved` is the effect on `[data]`.
- `EditableCell.ReceiveValue` is a re-render that hands the cell its current
  store value.

`resetData` assigns the very array `originalData` back to `data`; it does
not copy it. The code never mutates a row in place: an edit always spreads
into a fresh object inside a fresh array. So sharing the array is harmless,
and with Dafny's value semantics the model has nothing to alias.
`originalData` is a `const` field of `App` because its state cell has no
setter.

## Model

| member | source | states |
|---|---|---|
| Records.ColumnAccessors | src/App.tsx:191-229 | The column tree has exactly six leaves: firstName, lastName, age, visits, status, progress. They are pairwise distinct and are exactly the field names `IsField` accepts. |
| Records.SetField | src/App.tsx:648-651 | The spread copy has the keys of the old row plus `columnId`. `columnId` maps to the new value, and every other field keeps its old value. |
| Records.UpdateRows | src/App.tsx:645-655 | Same length as the old list. The row at `rowIndex` has field `columnId` set to `value` and all its other fields kept. Every other row is unchanged. A `rowIndex` outside `[0, length)` leaves the list equal to the old one. |
| Records.UpdateKeepsWellFormed | src/App.tsx:646-654 | Editing a column of the tree keeps every record holding exactly the six fields. |
| Records.UpdateWithSameValue | src/App.tsx:646-654 | Committing the value a cell already holds gives back equal contents. |
| Records.UpdateSameCellTwice | src/App.tsx:646-654 | Two commits to one cell equal the later commit alone. |
| Records.UpdatesCommute | src/App.tsx:646-654 | Commits to two different cells give the same rows in either order. |
| RecordStore.StepKeepsValid | src/App.tsx:642-667 | Each handler (edit, reset, effect) keeps the row lists equal in length and their records well formed. It leaves the snapshot alone. |
| RecordStore.RunAppend | src/App.tsx:642-667 | Handling two event sequences in turn is the same as handling their concatenation. |
| RecordStore.RunKeepsOriginal | src/App.tsx:633 | No sequence of edits, resets or effects changes `originalData`. |
| RecordStore.RunKeepsValid | src/App.tsx:642-667 | After any sequence of table events, `data` has the length of `originalData` and every record has the six fields. |
| RecordStore.FlagFollowsLatestEdit | src/App.tsx:644 | After any sequence, `skipPageReset` equals the reference definition `ArmedAfter`: the latest edit arms the flag, the latest observed data change disarms it, and resets never touch it. `autoResetPage` is its negation. |
| RecordStore.CommitSuppressesOnce | src/App.tsx:661-663 | After an edit, the table is configured without automatic page reset, and after a second edit it still is (arming is idempotent). Once the data change is observed, automatic page reset is on again and the rows are unchanged. |
| RecordStore.ResetAfterObservedAutoResets | src/App.tsx:103 | A reset issued after the previous change was observed leaves `autoResetPage` true. |
| RecordStore.ResetRestoresSeed | src/App.tsx:667 | From mount, after any history, a reset makes `data` equal to the seed, and `originalData` is still the seed. |
| RecordStore.ResetForgetsHistory | src/App.tsx:667 | Any history followed by reset and its observation reaches the same state as reset and observation alone. |
| RecordStore.EditResetEditReset | src/App.tsx:642-667 | Edit, reset, edit, reset (each change observed) ends in the same state as a single reset. |
| RecordStore.App.constructor | src/App.tsx:631-634 | At mount both lists are the seed and the flag is off, so `autoResetPage` is true. |
| RecordStore.App.UpdateMyData | src/App.tsx:642-656 | `data` becomes `UpdateRows` of the old rows and the flag is armed. This is the `Commit` step. |
| RecordStore.App.ResetData | src/App.tsx:667 | `data` becomes `originalData`, and the flag keeps its value. This is the `ResetClick` step. |
| RecordStore.App.DataChanged | src/App.tsx:661-663 | The rows are unchanged and the flag is off. This is the `DataObserved` step. |
| CellEditor.Resync | src/App.tsx:65-67 | Afterwards the cell remembers the new external value. The cell is unchanged exactly when that value equals the one it last received. A changed value replaces the draft. |
| CellEditor.BlurCommitsDraft | src/App.tsx:60-62 | A blur writes exactly the draft at (row index, column id). It leaves every other field of that row and every other row unchanged, and arms the suppression flag. |
| CellEditor.TypingThenBlur | src/App.tsx:55-62 | Keystrokes change only the draft, which ends as the last text typed, stored as text. The remembered external value is unchanged. The blur then stores that last text. |
| CellEditor.CommitThenResync | src/App.tsx:60-67 | After a blur and the resync its re-render triggers, the draft equals the stored value, which is the text the user typed. |
| CellEditor.EditedCellShowsSeedAfterReset | src/App.tsx:60-67 | A cell committed and resynced, then reset and resynced again, shows the value of the snapshot at its coordinate. |
| CellEditor.ResetReachesCell | src/App.tsx:65-67 | After a reset, a cell shows the seeded value if and only if its external value actually changed or its draft already held that value. |
| CellEditor.EditableCell.constructor | src/App.tsx:53 | The draft and the remembered external value both start as `initialValue`, and the cell is bound to its row index and column id. |
| CellEditor.EditableCell.OnChange | src/App.tsx:55-57 | Only the draft changes, and it becomes the typed string as text. The method cannot modify the store. |
| CellEditor.EditableCell.OnBlur | src/App.tsx:60-62 | The store's rows become `UpdateRows` at the cell's coordinate with the draft, and the flag is armed. The cell is unchanged. |
| CellEditor.EditableCell.ReceiveValue | src/App.tsx:65-67 | If the external value changed, the draft becomes it; otherwise the draft is kept. The new external value is remembered either way. |
| CellEditor.EditableCell.CommitAndResync | src/App.tsx:60-67 | Blur, then re-render. The store's new state is `Blur` of the old draft, so the draft is stored at the cell's coordinate and the flag is armed. The cell's new state is `Resync` with that stored value: the draft is kept and equals the stored value, and the cell remembers it as its external value. |
| Pagination.GotoPageIndex | src/App.tsx:167 | A typed `n` goes to the index whose label is `n`, with no bounds check. The target is index 0 exactly for a blank entry or the entry 1. |
| Pagination.LastPageIndex | src/App.tsx:152 | The ">>" target is the page labelled `pageCount`. |
| Pagination.GotoLabelRoundTrip | src/App.tsx:158-167 | Typing the number the readout shows (`pageIndex + 1`) goes back to `pageIndex`. |
| Pagination.FirstAndLast | src/App.tsx:143-167 | "<<", a blank box and the entry 1 all target index 0 (label 1). ">>" targets the same index as typing `pageCount`. |
| Pagination.PageSizeOptions | src/App.tsx:179 | Five sizes are offered, the i-th being 10·(i+1). |
| Pagination.PageSizeKeysDistinct | src/App.tsx:179-180 | The sizes, which also serve as the options' keys, are pairwise distinct. |

## Left out

- Pagination inside the table library (`useTable`/`usePagination`): page slicing, page count, index clamping, `canPreviousPage`/`canNextPage`, `previousPage`/`nextPage`, and what `gotoPage` and `setPageSize` do with their argument. That code is not part of this model. Nothing is claimed about clamping, about which rows a page shows, or about the page index staying put after an edit. The model only states how `autoResetPage` is configured.
- JSX rendering, header-group iteration and the styled-components CSS: these are presentation only.
- React scheduling: batching of state updates, when effects run, and the reference-equality test on effect dependencies. Each handler and effect is an explicit step. `DataObserved` stands for the effect on `[data]`. `ReceiveValue` compares values, because cell values are primitives.
- JavaScript `Number()` parsing in the "go to page" box and the page-size selector: non-numeric or fractional text is browser behaviour. The box is modelled as blank or a whole number, and the selector's conversion is not modelled.
- The concrete 50-row seed literal: the seed is an arbitrary `seq<Row>`. `Valid` states the shape every seeded row has, which is exactly the six column fields.
- Unmounting and remounting of cells when the page changes: each `EditableCell` models one mounted input.
