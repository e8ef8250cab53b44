/**
 * `NotepadViewModel`: the UI state cell and the mutations that compute a new
 * note list and hand it, sorted, to the repository.
 */
module ViewModel {
  import opened NoteModel
  import opened Text
  import opened Lists
  import opened Ordering
  import opened NoteOps
  import opened Wrappers

  /** `NotepadUiState`: the notes shown and the search text. */
  datatype UiState = UiState(notes: seq<Note>, searchQuery: string)

  class NotepadViewModel {
    /** `_uiState.value` */
    var uiState: UiState
    /**
     * Every list `persist` has handed to the repository's `saveNotes`, oldest
     * first. The repository itself is not modelled: what it emits back comes
     * in through OnLoaded.
     */
    var saves: seq<seq<Note>>

    /** The notes shown are always in canonical order. */
    ghost predicate Valid()
      reads this
    {
      Sorted(uiState.notes)
    }

    constructor ()
      ensures Valid()
      ensures uiState == UiState([], "") && saves == []
    {
      uiState := UiState([], "");
      saves := [];
    }

    /**
     * The collector in `init`: the repository emitted `saved`; the notes
     * shown become its canonical ordering and the search text stays.
     */
    method OnLoaded(saved: seq<Note>)
      modifies this`uiState
      ensures Valid()
      ensures uiState == old(uiState).(notes := Sort(saved))
      ensures multiset(uiState.notes) == multiset(saved)
    {
      uiState := uiState.(notes := Sort(saved));
    }

    /** `updateSearch`: replaces the search text and nothing else. */
    method UpdateSearch(query: string)
      modifies this`uiState
      ensures Valid() == old(Valid())
      ensures uiState.searchQuery == query && uiState.notes == old(uiState.notes)
    {
      uiState := uiState.(searchQuery := query);
    }

    /**
     * `filteredNotes`: every note while the search text is blank; otherwise
     * the notes whose lower-cased title or body contains the trimmed,
     * lower-cased search text, in their order and with their multiplicity.
     */
    function FilteredNotes(): (r: seq<Note>)
      reads this
      ensures IsBlank(uiState.searchQuery) ==> r == uiState.notes
      ensures !IsBlank(uiState.searchQuery) ==>
        && IsSubseq(r, uiState.notes)
        && forall n :: multiset(r)[n] ==
             if Matches(n, Normalize(uiState.searchQuery)) then multiset(uiState.notes)[n] else 0
      ensures Sorted(uiState.notes) ==> Sorted(r)
    {
      var current := uiState;
      if IsBlank(current.searchQuery) then current.notes
      else
        var test := MatchesQuery(Normalize(current.searchQuery));
        KeepSubseq(current.notes, test);
        KeepCount(current.notes, test);
        KeepSortedIfSorted(current.notes, test);
        Keep(current.notes, test)
    }

    /** `persist`: hands the canonical ordering of `list` to the repository. */
    method Persist(list: seq<Note>)
      requires Valid()
      modifies this`saves
      ensures Valid()
      ensures saves == old(saves) + [Sort(list)]
    {
      saves := saves + [Sort(list)];
    }

    /**
     * `createNote`: saves the shown notes plus one new, unpinned note with
     * the fresh id and the current time. The shown notes are not touched.
     */
    method CreateNote(freshId: string, title: string, body: string, now: int)
      requires Valid()
      modifies this`saves
      ensures Valid()
      ensures saves == old(saves) + [Sort(uiState.notes + [NewNote(freshId, title, body, now)])]
      ensures var saved := saves[|saves| - 1];
        && |saved| == |uiState.notes| + 1
        && multiset(saved) == multiset(uiState.notes) + multiset{NewNote(freshId, title, body, now)}
        && Sorted(saved)
    {
      var newNote := NewNote(freshId, title, body, now);
      assert multiset(uiState.notes + [newNote]) == multiset(uiState.notes) + multiset{newNote};
      Persist(uiState.notes + [newNote]);
    }

    /**
     * `updateNote`: when some note has `noteId`, saves the shown notes with
     * the first such note given the new title, body and time; otherwise
     * saves nothing.
     */
    method UpdateNote(noteId: string, title: string, body: string, now: int)
      requires Valid()
      modifies this`saves
      ensures Valid()
      ensures var u := Updated(uiState.notes, noteId, title, body, now);
        saves == old(saves) + (if u.Some? then [Sort(u.value)] else [])
    {
      var current := uiState.notes;
      var index := IndexOfFirst(current, noteId);
      if index == -1 {
        return;
      }
      current := current[index := current[index].(
        title := IfBlank(title, Untitled),
        body := body,
        lastModified := now)];
      Persist(current);
    }

    /**
     * `deleteNote`: saves the shown notes without those carrying `noteId`,
     * also when there are none; since the shown notes are in canonical order,
     * the rest are saved in their current order.
     */
    method DeleteNote(noteId: string)
      requires Valid()
      modifies this`saves
      ensures Valid()
      ensures saves == old(saves) + [Sort(WithoutId(uiState.notes, noteId))]
      ensures saves == old(saves) + [WithoutId(uiState.notes, noteId)]
    {
      var updated := WithoutId(uiState.notes, noteId);
      Persist(updated);
      DeleteFromSortedKeepsOrder(uiState.notes, noteId);
    }

    /**
     * `togglePin`: when some note has `noteId`, saves the shown notes with
     * the first such note's pin flag flipped and its time refreshed;
     * otherwise saves nothing.
     */
    method TogglePin(noteId: string, now: int)
      requires Valid()
      modifies this`saves
      ensures Valid()
      ensures var t := Toggled(uiState.notes, noteId, now);
        saves == old(saves) + (if t.Some? then [Sort(t.value)] else [])
    {
      var current := uiState.notes;
      var index := IndexOfFirst(current, noteId);
      if index == -1 {
        return;
      }
      var note := current[index];
      current := current[index := note.(pinned := !note.pinned, lastModified := now)];
      Persist(current);
    }
  }
}
