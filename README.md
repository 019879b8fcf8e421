# To-do list state machine

A model of the `TodoList` component of a small client-side to-do application
(`src/App.jsx`). The component holds four pieces of state: the list of to-dos
(`{id, text, completed}` records in display order), the text of the "add" field,
the id of the to-do being edited (or `null`), and the draft text of that edit.
Its event handlers each make one atomic transition of that state:

- **add** (`handleSubmit`) appends a new uncompleted to-do if the input is not blank, then clears the input;
- **delete** (`handleDelete`) filters out the to-dos with a given id;
- **edit** (`handleEdit`) puts one to-do in edit mode and seeds the draft with its text;
- **save edit** (`handleSaveEdit`) writes a non-blank draft into the to-dos with a given id, then leaves edit mode;
- **cancel edit** (`handleCancelEdit`) leaves edit mode and discards the draft;
- **toggle** (`handleToggleComplete`) flips the completion flag of the to-dos with a given id;
- **typing** (`handleChange` and the edit field's inline `onChange`) stores the typed text.

Files:

- `text.dfy` (module `Text`): JavaScript's `trim` (`TrimStart`, `TrimEnd`, `Trim`, `TrimIsSlice`) over an
  `IsWs` predicate holding the ECMAScript WhiteSpace and LineTerminator code points, and
  `NonBlank`. The lemma `TrimEmptyIff` shows that the handlers' truthiness test on
  `s.trim()` is exactly `NonBlank(s)`.
- `todos.dfy` (module `Todos`): the `Todo` record, the three list computations of the
  handlers as pure functions (`RemoveId` for the `filter`, `ReplaceText` and
  `ToggleCompleted` for the two `map`s), and lemmas about them: order preservation,
  no-op on a missing id, double toggle, and preservation of distinct ids.
- `app.dfy` (module `App`): class `TodoList` with the four state cells as fields and one
  method per handler. Each method assigns the result of the pure function and states
  the whole new state, what stays unchanged, and that distinct ids stay distinct.
- `scenarios.dfy` (module `Scenarios`): short event sequences on a `TodoList`, such as
  edit then save, edit then cancel, two edits in a row, a blank submit and a double toggle,
  with the expected outcome asserted.

The id of a new to-do comes from the wall clock (`Date.now()`). Here it is the
`newId` parameter of `HandleSubmit`. Distinct ids after an add are promised only
when `newId` does not already occur in the list. The stored text is the untrimmed
input, exactly as in the source: `"  milk  "` is stored with its spaces.

Delete removes *every* to-do whose id matches, because the code filters the whole list.
It is not limited to "the" matching to-do. Likewise, save edit and toggle update every
match. The model follows the code. With distinct ids this is the same thing, and
`RemoveIdPresent` shows that exactly one to-do is then removed.

## Model

| member | source | states |
|---|---|---|
| `Text.TrimStart` | src/App.jsx:19 | the result is a suffix of the input that is empty or starts with a non-white-space character, and everything cut off is white space |
| `Text.TrimEnd` | src/App.jsx:19 | the result is a prefix of the input that is empty or ends with a non-white-space character, and everything cut off is white space |
| `Text.Trim` | src/App.jsx:41 | `trim` returns a string no longer than its input that neither starts nor ends with white space |
| `Text.TrimIsSlice` | src/App.jsx:41 | `trim` returns a contiguous slice of its input, and everything cut off before and after the slice is white space |
| `Text.TrimEmptyIff` | src/App.jsx:19 | `s.trim()` is empty (falsy) exactly when every character of `s` is white space, so the handlers' guard is `NonBlank` |
| `Todos.RemoveId` | src/App.jsx:31 | the filtered list has no to-do with the id, keeps exactly the to-dos whose id differs, and is no longer than the input |
| `Todos.RemoveIdAbsent` | src/App.jsx:30-33 | deleting an id that no to-do carries leaves the list unchanged |
| `Todos.RemoveIdSubsequence` | src/App.jsx:31 | the surviving to-dos keep their original relative order (the result is a subsequence of the input) |
| `Todos.RemoveIdConcat` | src/App.jsx:31 | the filter works element by element: it distributes over concatenation |
| `Todos.RemoveIdUniqueIds` | src/App.jsx:30-33 | deleting keeps the ids pairwise distinct |
| `Todos.RemoveIdPresent` | src/App.jsx:30-33 | with distinct ids, deleting an id that is present removes exactly one to-do |
| `Todos.ReplaceText` | src/App.jsx:42-44 | same length and order; every id and completion flag kept; the text is the new one exactly at the positions whose id matches |
| `Todos.ReplaceTextAbsent` | src/App.jsx:40-49 | saving an edit for an id that no to-do carries leaves the list unchanged |
| `Todos.ReplaceTextSame` | src/App.jsx:35-49 | with distinct ids, saving a to-do's own current text (edit, then save without typing) leaves the list unchanged |
| `Todos.ToggleCompleted` | src/App.jsx:57-59 | same length and order; every id and text kept; the completion flag flips exactly at the positions whose id matches |
| `Todos.ToggleTwice` | src/App.jsx:56-61 | toggling the same id twice restores the original list |
| `Todos.ToggleAbsent` | src/App.jsx:56-61 | toggling an id that no to-do carries leaves the list unchanged |
| `Todos.AppendFreshUniqueIds` | src/App.jsx:20-25 | appending a to-do whose id is fresh keeps the ids pairwise distinct |
| `App.TodoList.constructor` | src/App.jsx:8-11 | initial state: the stored list, an empty input, no to-do in edit mode, an empty draft |
| `App.TodoList.HandleChange` | src/App.jsx:13-15 | the input becomes the typed text; the list and the edit state are unchanged |
| `App.TodoList.HandleSubmit` | src/App.jsx:17-28 | a non-blank input is appended untrimmed as `Todo(newId, input, false)` after the unchanged old list, and the input is cleared; a blank input leaves the list and the input as they were; edit state unchanged; distinct ids stay distinct when `newId` is fresh |
| `App.TodoList.HandleDelete` | src/App.jsx:30-33 | the list becomes the filtered list: an order-preserving subsequence with no to-do of that id, unchanged if the id is absent; ids stay distinct; nothing else changes |
| `App.TodoList.HandleEdit` | src/App.jsx:35-38 | edit mode is on for exactly the given to-do's id, with its text as the draft, overwriting any earlier edit; list and input unchanged |
| `App.TodoList.HandleEditChange` | src/App.jsx:106 | the draft becomes the typed text; list, input and edited id unchanged |
| `App.TodoList.HandleSaveEdit` | src/App.jsx:40-49 | a non-blank draft becomes, untrimmed, the text of the matching to-dos and edit mode ends with an empty draft; a blank draft changes nothing (edit mode stays open); input unchanged; ids stay distinct |
| `App.TodoList.HandleCancelEdit` | src/App.jsx:51-54 | edit mode ends and the draft is emptied; list and input unchanged |
| `App.TodoList.HandleToggleComplete` | src/App.jsx:56-61 | the list becomes the toggled list, unchanged if the id is absent; ids stay distinct; input and edit state unchanged |

## Left out

- Persistence (`src/hooks/useLocalStorage.js`): reading the list from the browser's `localStorage` at start-up, `JSON.parse`/`JSON.stringify`, and the write after every change scheduled by React's `useEffect`. These are I/O and foreign calls. The constructor takes the list read back from storage as its argument.
- The wall clock: `Date.now()` is the `newId` parameter of `HandleSubmit`. Two adds within one clock tick would collide; the model only says what happens when the id is fresh.
- The JavaScript number type of ids: ids are unbounded integers, and values read back from storage are assumed to be well-formed to-do records.
- React's asynchronous, batched `setState`: each handler is one atomic transition from the state it reads.
- `e.preventDefault()` in the submit handler: it only stops the browser's form submission.
- Rendering: the JSX markup, CSS classes, the empty-list placeholder, the choice of which row shows the edit field (`editingId === todo.id`), and the footer's current year.
- The white-space set of `trim` is written out as a fixed list of code points. It is not derived from Unicode category data.
