# To-do list store, modelled in Dafny

The application is a single React Native screen (`Index` in `src/app/index.tsx`)
that keeps a to-do list as two parallel arrays: `items`, the texts, and
`checkedItems`, the completion flags. A third piece of state, `newItem`, is the
text field. Five handlers change the list: add the typed text, toggle one flag,
delete one position, delete every checked position, and the delete button's
policy that chooses between the two deletes. The texts, and only the texts,
are written to a key-value store under the key `@items`. On start-up they are
read back with every flag reset to unchecked.

The model has five modules:

- `JsString` (`js_string.dfy`): JavaScript's `trim`, with the whitespace set of
  ECMAScript (WhiteSpace and LineTerminator) written out. It proves that a text
  trims to the empty string exactly when it is blank.
- `ArrayFilter` (`array_filter.dfy`): `Array.prototype.filter` with an
  `(element, index)` callback. It proves what filtering keeps, where each kept
  element lands (its rank), that order is preserved, and that dropping one
  index splices that position out.
- `TodoList` (`todo_list.dfy`): the state as a value (`Todo`) and each handler
  as a function from the old state to the new one, built from the same filter
  expressions the handlers use. Beside them are the lemmas: add, toggle, both
  deletes, the delete policy, save-then-load, and the invariant `Aligned`
  (both arrays have one length).
- `TodoScreen` (`todo_screen.dfy`): the component as a class `Index` with the
  three state fields and one method per handler. The postcondition of each
  list handler (`HandleAddItem`, `HandleDeleteItem`, `HandleDeleteItemByIndex`,
  `ToggleCheck`, `PressDelete`, `LoadItemsFromStorage`) ties the new state to
  the matching `TodoList` function. Some also state their effect on the fields
  directly:
  - `HandleAddItem`: the appended text and flag, the cleared input, and no
    change for a blank input;
  - `HandleDeleteItem`: the flags left, all `false`; the texts left are given
    only through `DeleteChecked`;
  - `HandleDeleteItemByIndex`: the splice of position `index` out of each array;
  - `LoadItemsFromStorage`: the payload's texts with all-`false` flags, or no
    change when nothing is stored;
  - `SetNewItem` and `SaveItemsToStorage`: their whole effect.

  `ToggleCheck` and `PressDelete` state their effect only through `Toggle`,
  `DeleteChecked` and `DeleteByIndex`. `ToggleCheck` copies the flags into an
  array and negates one element in place, as the handler does. The storage is
  a class `AsyncStorage` over a map from keys to decoded payloads.
- `TodoScenarios` (`todo_scenarios.dfy`): four concrete runs. `BulkDelete` is
  derived from the general lemmas about the delete policy and about deleting
  the checked items. Dafny proves the other three by evaluating the functions
  directly.

Four places where the code differs from a looser reading of the behaviour
of the screen, and where the model follows the code:

- Reading `checkedItems[i]` past the end yields `undefined`, which is falsy.
  `TodoList.IsChecked` models that reading. So `handleDeleteItem` and the
  delete policy need no precondition.
- `handleDeleteItemByIndex` never reads a flag. Its callback, which keeps the
  positions other than `index`, accepts any index, so it needs no
  precondition either. An index past the end deletes nothing.
- `toggleCheck` has no bounds guard. An out-of-range index would grow the
  flag array, not be ignored. The UI only passes indices of rendered items,
  so the model requires the index to be in range.
- A failed or empty load leaves the state as it was, not "empty". The two
  agree only at start-up, when the state is the initial empty list.

## Model

| member | source | states |
|---|---|---|
| `JsString.TrimStart` | src/app/index.tsx:41 | the result is the longest suffix not starting with whitespace; everything dropped is whitespace |
| `JsString.TrimEnd` | src/app/index.tsx:41 | the result is the longest prefix not ending with whitespace; everything dropped is whitespace |
| `JsString.Trim` | src/app/index.tsx:41 | `newItem.trim()` is a slice of `newItem` with only whitespace cut off before and after it, and it neither starts nor ends with whitespace |
| `JsString.TrimEmptyIffBlank` | src/app/index.tsx:41 | `newItem.trim()` is empty (falsy) exactly when every character of `newItem` is whitespace |
| `ArrayFilter.Filter` | src/app/index.tsx:49-57 | `filter` never returns more elements than it is given |
| `ArrayFilter.FilterAt` | src/app/index.tsx:49-57 | every element the callback accepts is in the result, at the index equal to the number of accepted elements before it |
| `ArrayFilter.FilterFrom` | src/app/index.tsx:49-57 | every element of the result is an accepted element of the input, taken from the position whose rank is its index |
| `ArrayFilter.FilterOrder` | src/app/index.tsx:49-57 | accepted elements keep their relative order |
| `ArrayFilter.FilterDropsOne` | src/app/index.tsx:55-57 | a callback that rejects exactly one index removes exactly that position |
| `ArrayFilter.FilterComplement` | src/app/index.tsx:51 | the number of elements a callback keeps plus the number its negation keeps is the length of the array |
| `ArrayFilter.FilterSameCount` | src/app/index.tsx:49-51 | arrays of equal length whose callbacks agree position by position keep equally many elements |
| `TodoList.IsChecked` | src/app/index.tsx:49 | reading `checkedItems[i]` past the end gives false (`undefined` is falsy); inside the array it gives the flag |
| `TodoList.CheckedCount` | src/app/index.tsx:99 | the number of checked flags plus the number of unchecked ones is the length; it is zero exactly when no flag is set |
| `TodoList.Add` | src/app/index.tsx:40-46 | existing texts and flags are never altered; at most one entry is added, and it is the typed text with a `false` flag, after which the input is `""`; alignment is kept |
| `TodoList.DeleteChecked` | src/app/index.tsx:48-52 | the flags shrink by exactly the number that were checked; the texts never grow; alignment is kept; the input is untouched |
| `TodoList.DeleteByIndex` | src/app/index.tsx:54-58 | each array loses exactly one entry when `index` lies inside it and none otherwise; alignment is kept; the input is untouched |
| `TodoList.PressDelete` | src/app/index.tsx:98-105 | on an aligned state with the pressed index inside the list, the list always gets shorter; alignment is kept; the input is untouched |
| `TodoList.Saved` | src/app/index.tsx:13 | the payload written is exactly the texts, in order; flags and input are not part of it |
| `TodoList.Toggle` | src/app/index.tsx:60-64 | only the flag at `index` is negated; every other flag, the texts and the input are unchanged; alignment is kept |
| `TodoList.Load` | src/app/index.tsx:19-30 | with no stored payload the state is unchanged; with one, the texts become the payload and the flags are all `false`, one per text; the input is kept |
| `TodoList.AddAppendsNonBlank` | src/app/index.tsx:40-46 | a non-blank text is appended as typed, with an unchecked flag, and the input is cleared; a blank text changes nothing; alignment is kept |
| `TodoList.ToggleTwice` | src/app/index.tsx:60-64 | toggling the same index twice restores the state |
| `TodoList.DeleteByIndexRemovesOne` | src/app/index.tsx:54-58 | an in-range index is spliced out of both arrays; an index past the end changes nothing; alignment is kept |
| `TodoList.WithoutIndexSplices` | src/app/index.tsx:55-57 | `filter((_, i) => i !== index)` is the array with position `index` spliced out, or the array itself when `index` is past the end |
| `TodoList.DeleteCheckedClearsFlags` | src/app/index.tsx:48-52 | after deleting the checked items every flag left is `false`; with aligned arrays there is one flag per remaining text, and the count of texts drops by the number checked |
| `TodoList.DeleteCheckedKeepsUnchecked` | src/app/index.tsx:49 | each unchecked text survives, at the position given by the number of unchecked items before it |
| `TodoList.DeleteCheckedOnlyUnchecked` | src/app/index.tsx:49 | each surviving text comes from an unchecked position whose rank is its new index |
| `TodoList.DeleteCheckedKeepsOrder` | src/app/index.tsx:49 | surviving texts keep their relative order |
| `TodoList.RankOfUnchecked` | src/app/index.tsx:49-51 | an item's rank among the kept texts equals the number of `false` flags before it |
| `TodoList.TwoCheckedCount` | src/app/index.tsx:99 | two distinct checked positions make the checked count at least two |
| `TodoList.PressDeletePolicy` | src/app/index.tsx:98-105 | pressing delete on a checked item always equals deleting all checked items, including when it is the only one checked; on an unchecked item it removes only that item |
| `TodoList.SaveLoadClearsFlags` | src/app/index.tsx:13-25 | loading what was saved restores the texts in order, with every flag `false` and the arrays aligned |
| `TodoScreen.Index.constructor` | src/app/index.tsx:7-9 | the component starts with no texts, no flags and an empty input |
| `TodoScreen.Index.SetNewItem` | src/app/index.tsx:74-75 | typing sets `newItem` and leaves the list alone |
| `TodoScreen.Index.HandleAddItem` | src/app/index.tsx:40-46 | the new state is `Add` of the old one: a non-blank input is appended as typed with `false` and cleared; a blank input changes nothing |
| `TodoScreen.Index.HandleDeleteItem` | src/app/index.tsx:48-52 | the new state is `DeleteChecked` of the old one; the flags left are all `false`; alignment is kept |
| `TodoScreen.Index.HandleDeleteItemByIndex` | src/app/index.tsx:54-58 | the new state is `DeleteByIndex` of the old one: position `index` is spliced out of both arrays |
| `TodoScreen.Index.ToggleCheck` | src/app/index.tsx:60-64 | copying the flags into an array and negating one element gives `Toggle` of the old state |
| `TodoScreen.Index.PressDelete` | src/app/index.tsx:98-105 | a checked target deletes every checked item; an unchecked target deletes only itself |
| `TodoScreen.Index.SaveItemsToStorage` | src/app/index.tsx:11-17 | the slot `@items` is overwritten with the texts alone; other keys are unchanged |
| `TodoScreen.Index.LoadItemsFromStorage` | src/app/index.tsx:19-30 | the new state is `Load` of the old one and the slot's content: a present payload becomes the texts, with one `false` flag per text; with nothing stored the state is unchanged |
| `TodoScreen.SaveThenLoad` | src/app/index.tsx:11-30 | saving then loading through one storage leaves the texts under `@items` and every other key unchanged, and gives back the texts in order with every flag cleared and the input untouched |
| `TodoScenarios.CheckThenDeleteOnly` | src/app/index.tsx:98-105 | checking the only item and pressing delete on it empties the list |
| `TodoScenarios.BulkDelete` | src/app/index.tsx:98-105 | with `A` and `B` checked, pressing delete on `A` leaves only `C` |
| `TodoScenarios.DeleteUncheckedOnly` | src/app/index.tsx:98-105 | pressing delete on an unchecked item leaves the checked one in place |
| `TodoScenarios.ReloadUnchecks` | src/app/index.tsx:22-25 | a checked item comes back unchecked after a save and a load |

## Left out

- Rendering, icons and styles (src/app/index.tsx:66-179) are left out. They are UI; the one piece of logic in them, the delete button's policy, is modelled as `PressDelete`.
- `await`, and errors caught and logged with `console.error`, are left out. The store is a synchronous map.
- TodoScreen.Index.SaveItemsToStorage: a failed write is not modelled; the write always succeeds. A failure would leave the store unchanged, and the component would not notice.
- TodoScreen.Index.LoadItemsFromStorage: a failed read or a payload that does not parse is not modelled. In the source either one leaves the state unchanged, the same as an absent payload.
- JSON encoding and decoding are not modelled. The store holds the decoded array of texts, so encode and decode are an exact inverse pair. A payload that is not an array of strings does not exist in the model. The empty string, which the source's `if (storedItems)` would also treat as absent, cannot be produced by `JSON.stringify` of an array.
- The `useEffect` scheduling is not modelled. This covers the load on mount, the save after every change to `items`, and the race between the first save of `[]` and the load. It also covers the fact that a toggle alone triggers no save, which does not matter here because flags are never saved. The model offers save and load as operations; when React runs them is outside it.
- JavaScript strings are sequences of UTF-16 code units; the model uses Unicode code points. Every whitespace character is in the Basic Multilingual Plane, so `trim` behaves the same on both.
- The Unicode category Zs in `JsString.IsJsWhitespace` is the one of Unicode 15. A later Unicode version that added a space character would change `trim`.
- TodoList.Toggle: an index past the end of `checkedItems` is excluded by the precondition. In the source an index equal to the length appends `true` (the negation of `undefined`); a larger one also leaves holes. Either way `checkedItems` ends up longer than `items`, which breaks `Aligned`. The UI never passes one.
