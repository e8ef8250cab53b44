# Notepad view model, in Dafny

This project models the core of an Android notepad app: the `NotepadViewModel`
that holds the UI state (the notes shown and the search text) and turns each
user action into a new note list handed, in canonical order, to the note
repository. The note record is `Note` (id, title, body, pinned flag,
last-modified time).

The model's modules follow the program:

- `NoteModel` (`note.dfy`) is the `Note` record.
- `Ordering` (`ordering.dfy`) is the comparator (pinned first, then newest
  first) and `sortedWith` as a stable insertion sort, proved sorted, a
  permutation, stable and idempotent.
- `Text` (`text.dfy`) holds the string operations the view model relies on:
  `isBlank`, `trim`, `lowercase`, `contains`, `ifBlank`.
- `Lists` (`lists.dfy`) is `filter` (`Keep`) and the subsequence relation.
- `NoteOps` (`note_ops.dfy`) is what each action computes from the shown
  notes before it saves: the new note, the edited list, the toggled list, the
  list without an id, the search match.
- `NoteIds` (`note_ids.dfy`) proves that every action keeps ids unique when
  they were unique before and the new id is fresh.
- `ViewModel` (`view_model.dfy`) is the class itself. Its field `uiState`
  mirrors `NotepadUiState`. The field `saves` records, oldest first, every
  list `persist` handed to the repository's `saveNotes`. The class invariant
  `Valid()` says the shown notes are always in canonical order.
- `Scenarios` (`scenarios.dfy`) holds small concrete call sequences, each
  with its outcome verified: load, search, delete an unknown id, create a
  note with a blank title.
- `Wrappers` (`wrappers.dfy`) is an `Option` type.

The clock (`System.currentTimeMillis()`) and the id generator
(`UUID.randomUUID()`) are parameters `now` and `freshId`. The repository's
flow of saved notes comes in through `OnLoaded`.

The mutations (`createNote`, `updateNote`, `deleteNote`, `togglePin`) do not
change the shown notes. They only save a list, and the shown notes change
when the repository emits that list back. The model keeps this split:
mutations only append to `saves`, and only `OnLoaded` writes
`uiState.notes`.

## Model

| member | source | states |
|---|---|---|
| Ordering.Compare | app/src/main/java/com/agentic/notepad/ui/NotepadViewModel.kt:96-97 | a note goes first exactly when it is pinned and the other is not, or both have the same pin flag and it is newer; they tie exactly when both keys are equal |
| Ordering.InsertSorted | app/src/main/java/com/agentic/notepad/ui/NotepadViewModel.kt:29 | inserting into a sorted list keeps it sorted |
| Ordering.Sort | app/src/main/java/com/agentic/notepad/ui/NotepadViewModel.kt:29 | `sortedWith(noteComparator())`: same length, sorted, a permutation of the input |
| Ordering.SortedMeansPinnedFirstThenNewest | app/src/main/java/com/agentic/notepad/ui/NotepadViewModel.kt:96-97 | sorted iff every pinned note precedes every unpinned one and, within a group, times never increase |
| Ordering.SortStable | app/src/main/java/com/agentic/notepad/ui/NotepadViewModel.kt:92 | the sort is stable: notes that tie on both keys keep their input order |
| Ordering.SortOfSorted | app/src/main/java/com/agentic/notepad/ui/NotepadViewModel.kt:29 | sorting a sorted list returns it unchanged |
| Ordering.SortIdempotent | app/src/main/java/com/agentic/notepad/ui/NotepadViewModel.kt:29 | sorting twice is sorting once |
| Ordering.KeepSorted | app/src/main/java/com/agentic/notepad/ui/NotepadViewModel.kt:44-47 | filtering a sorted list keeps it sorted |
| Lists.KeepSubseq | app/src/main/java/com/agentic/notepad/ui/NotepadViewModel.kt:44 | `filter` returns a subsequence of its input (order kept) |
| Lists.KeepCount | app/src/main/java/com/agentic/notepad/ui/NotepadViewModel.kt:44 | `filter` keeps every element that passes, with its multiplicity, and nothing else |
| Lists.KeepAll | app/src/main/java/com/agentic/notepad/ui/NotepadViewModel.kt:74 | filtering by a test every element passes returns the list itself |
| Text.TrimStart | app/src/main/java/com/agentic/notepad/ui/NotepadViewModel.kt:43 | the result is a suffix of the input, what was cut is blank, and the result does not start with whitespace |
| Text.TrimEnd | app/src/main/java/com/agentic/notepad/ui/NotepadViewModel.kt:43 | the result is a prefix of the input, what was cut is blank, and the result does not end with whitespace |
| Text.Trim | app/src/main/java/com/agentic/notepad/ui/NotepadViewModel.kt:43 | `trim()`: a prefix of what is left after the leading whitespace is cut, with no whitespace at either of its ends |
| Text.TrimIsMiddleSlice | app/src/main/java/com/agentic/notepad/ui/NotepadViewModel.kt:43 | `trim()` returns the slice of the input between a blank prefix and a blank suffix; with Trim's ends this pins the result down |
| Text.TrimEmptyIffBlank | app/src/main/java/com/agentic/notepad/ui/NotepadViewModel.kt:42-43 | trimming gives the empty string exactly when the text is blank |
| Text.Lower | app/src/main/java/com/agentic/notepad/ui/NotepadViewModel.kt:43 | `lowercase()`: same length, each upper-case letter mapped to its lower-case letter, every other character kept, no upper-case letter left |
| Text.LowerIdempotent | app/src/main/java/com/agentic/notepad/ui/NotepadViewModel.kt:43-46 | lower-casing an already lower-cased text changes nothing |
| Text.Contains | app/src/main/java/com/agentic/notepad/ui/NotepadViewModel.kt:45-46 | `contains` holds exactly when the needle is a prefix of some suffix of the text |
| Text.IfBlank | app/src/main/java/com/agentic/notepad/ui/NotepadViewModel.kt:53 | `ifBlank`: the default for a blank text, the text itself otherwise; never blank when the default is not |
| NoteOps.IndexOfFirst | app/src/main/java/com/agentic/notepad/ui/NotepadViewModel.kt:63 | `indexOfFirst`: -1 exactly when no note has the id, otherwise the first position holding it |
| NoteOps.NewNote | app/src/main/java/com/agentic/notepad/ui/NotepadViewModel.kt:51-57 | the new note has the fresh id, the body, pinned false, the current time, and "Untitled" exactly when the title is blank |
| NoteOps.Updated | app/src/main/java/com/agentic/notepad/ui/NotepadViewModel.kt:62-69 | none for an unknown id; otherwise only the first note with the id changes: new title ("Untitled" if blank), body and time, same id and pin flag |
| NoteOps.Toggled | app/src/main/java/com/agentic/notepad/ui/NotepadViewModel.kt:79-86 | none for an unknown id; otherwise only the first note with the id changes: pin flag flipped, time refreshed |
| NoteOps.WithoutIdSpec | app/src/main/java/com/agentic/notepad/ui/NotepadViewModel.kt:74 | `filterNot`: no note with the id remains, the rest keep order and multiplicity, and an absent id changes nothing |
| NoteOps.Normalize | app/src/main/java/com/agentic/notepad/ui/NotepadViewModel.kt:42-43 | the normalized query is empty exactly when the query is blank |
| NoteOps.ToggleTwice | app/src/main/java/com/agentic/notepad/ui/NotepadViewModel.kt:78-88 | toggling the same note twice restores its pin flag; only its time changes |
| NoteOps.UpdateTwice | app/src/main/java/com/agentic/notepad/ui/NotepadViewModel.kt:61-71 | the same edit applied twice gives the list one edit gives |
| NoteOps.DeleteAbsentIsPermutation | app/src/main/java/com/agentic/notepad/ui/NotepadViewModel.kt:73-76 | deleting an unknown id saves a permutation of the shown notes |
| NoteOps.DeleteFromSortedKeepsOrder | app/src/main/java/com/agentic/notepad/ui/NotepadViewModel.kt:73-76 | deleting from notes in canonical order saves the rest in their current order |
| NoteIds.SortKeepsUniqueIds | app/src/main/java/com/agentic/notepad/ui/NotepadViewModel.kt:29 | sorting keeps ids unique |
| NoteIds.CreateKeepsUniqueIds | app/src/main/java/com/agentic/notepad/ui/NotepadViewModel.kt:50-59 | creating with a fresh id keeps ids unique |
| NoteIds.UpdateKeepsUniqueIds | app/src/main/java/com/agentic/notepad/ui/NotepadViewModel.kt:61-71 | updating keeps ids unique |
| NoteIds.ToggleKeepsUniqueIds | app/src/main/java/com/agentic/notepad/ui/NotepadViewModel.kt:78-88 | toggling keeps ids unique |
| NoteIds.DeleteKeepsUniqueIds | app/src/main/java/com/agentic/notepad/ui/NotepadViewModel.kt:73-76 | deleting keeps ids unique |
| NoteIds.IndexOfUnique | app/src/main/java/com/agentic/notepad/ui/NotepadViewModel.kt:63 | with unique ids, `indexOfFirst` finds a note's own position |
| NoteIds.ToggleTwiceAcrossReload | app/src/main/java/com/agentic/notepad/ui/NotepadViewModel.kt:26-31 | toggling, saving, reloading and toggling again saves the original notes with only the toggled note's time changed |
| ViewModel.NotepadViewModel.constructor | app/src/main/java/com/agentic/notepad/ui/NotepadViewModel.kt:14-23 | starts with no notes, an empty search text and nothing saved |
| ViewModel.NotepadViewModel.OnLoaded | app/src/main/java/com/agentic/notepad/ui/NotepadViewModel.kt:26-31 | the shown notes become the sorted saved notes; the search text stays |
| ViewModel.NotepadViewModel.UpdateSearch | app/src/main/java/com/agentic/notepad/ui/NotepadViewModel.kt:34-38 | replaces the search text and leaves the notes untouched |
| ViewModel.NotepadViewModel.FilteredNotes | app/src/main/java/com/agentic/notepad/ui/NotepadViewModel.kt:40-48 | all notes for a blank query; otherwise exactly the matching notes, in order and with multiplicity; sorted when the notes are |
| ViewModel.NotepadViewModel.Persist | app/src/main/java/com/agentic/notepad/ui/NotepadViewModel.kt:90-94 | appends the canonical ordering of the list to the saves |
| ViewModel.NotepadViewModel.CreateNote | app/src/main/java/com/agentic/notepad/ui/NotepadViewModel.kt:50-59 | saves the shown notes plus the new note, sorted: one longer, a permutation of notes plus the new note |
| ViewModel.NotepadViewModel.UpdateNote | app/src/main/java/com/agentic/notepad/ui/NotepadViewModel.kt:61-71 | saves nothing for an unknown id, otherwise the sorted edited list |
| ViewModel.NotepadViewModel.DeleteNote | app/src/main/java/com/agentic/notepad/ui/NotepadViewModel.kt:73-76 | always saves, even for an unknown id: the sorted list without the id, which is the list without the id in its current order |
| ViewModel.NotepadViewModel.TogglePin | app/src/main/java/com/agentic/notepad/ui/NotepadViewModel.kt:78-88 | saves nothing for an unknown id, otherwise the sorted toggled list |
| Scenarios.SortExample | app/src/main/java/com/agentic/notepad/ui/NotepadViewModel.kt:96-97 | an older pinned note sorts before a newer unpinned one |
| Scenarios.CreateExample | app/src/main/java/com/agentic/notepad/ui/NotepadViewModel.kt:50-59 | a note created with a blank title is "Untitled" and lands between the pinned note and the older unpinned one |
| Scenarios.FilterExample | app/src/main/java/com/agentic/notepad/ui/NotepadViewModel.kt:40-48 | searching "a" keeps only the note titled "A" |
| Scenarios.DeleteExample | app/src/main/java/com/agentic/notepad/ui/NotepadViewModel.kt:73-76 | deleting an id no note has keeps every note |

## Left out

- Coroutines: `persist` launches `saveNotes` on `viewModelScope`. Here the saves happen in call order. Two saves that race, and a `collectLatest` that drops an emission, are not modelled.
- The repository (DataStore plus JSON serialization) is not part of this model. What it emits is the input of `OnLoaded`, and what it is given is the `saves` log. The model does not assume that a saved list ever comes back.
- `System.currentTimeMillis()` and `UUID.randomUUID()` are the parameters `now` and `freshId`. Nothing makes `freshId` fresh. `NoteIds.CreateKeepsUniqueIds` assumes it is.
- Id uniqueness: the app never checks it. The `NoteIds` lemmas prove it is kept under that assumption. With duplicate ids, `updateNote` and `togglePin` change only the first note, and `deleteNote` removes all of them; the model keeps these behaviours.
- Text.IsWhitespace: only the ASCII whitespace of `Char.isWhitespace` (space, tab, line feed, vertical tab, form feed, carriage return, U+001C to U+001F). The Unicode space separators are not modelled.
- Text.Lower: `lowercase()` is modelled for `A`-`Z` only. Other letters are left unchanged, and no case mapping that changes the length is modelled.
- Ordering.Sort: Kotlin's `sortedWith` is a merge-based stable sort. It is modelled as a stable insertion sort. A stable sort's output is fully determined by the comparator, so the result is the same.
- `lastModified` is a `Long` in the app and an unbounded `int` here. It is only compared, never computed with.
- `uiState` is a `StateFlow` in the app. Here it is a plain field, and observers of the flow are not modelled.
- `NotepadScreen`, `MainActivity` and `NotepadViewModelFactory` are the UI and the wiring. They are not part of this model.
