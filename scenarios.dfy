/** Concrete call sequences of the view model on small note lists, stated and verified. */
module Scenarios {
  import opened NoteModel
  import opened Text
  import opened Lists
  import opened Ordering
  import opened NoteOps
  import opened ViewModel

  const A := Note("1", "A", "", false, 100)
  const B := Note("2", "B", "", true, 50)
  /** What `createNote("", "x")` builds with id "3" at time 200. */
  const C := Note("3", Untitled, "x", false, 200)

  lemma SortOne()
    ensures Sort([B]) == [B]
  {
    assert [B][..0] == [];
  }

  /** Pinned first: the older pinned note precedes the newer unpinned one. */
  lemma SortExample()
    ensures Sort([A, B]) == [B, A]
  {
    SortOne();
    assert [A, B][..1] == [A];
    assert Sort([A]) == [A] by { assert [A][..0] == []; }
    assert Insert(B, [A]) == [B, A];
  }

  /** A blank title becomes "Untitled". */
  lemma NewNoteExample()
    ensures NewNote("3", "", "x", 200) == C
  {
    assert IsBlank("");
  }

  /** The new unpinned note goes after the pinned one and before the older unpinned one. */
  lemma CreateExample()
    ensures Sort([B, A] + [NewNote("3", "", "x", 200)]) == [B, C, A]
  {
    SortOne();
    assert [B, A][..1] == [B];
    assert Sort([B, A]) == [B, A];
    assert Insert(C, [A]) == [C, A];
    assert [B, A][1..] == [A];
    assert Insert(C, [B, A]) == [B, C, A];
    assert [B, A, C][..2] == [B, A];
    assert [B, A] + [C] == [B, A, C];
    NewNoteExample();
  }

  lemma NormalizeExample()
    ensures !IsBlank("a") && Normalize("a") == "a"
  {
    assert !IsWhitespace("a"[0]);
    assert TrimStart("a") == "a";
    assert TrimEnd("a") == "a";
    assert Lower("a")[0] == 'a';
  }

  /** The lower-cased title "A" contains "a"; "B" does not. */
  lemma MatchExample()
    ensures Matches(A, "a") && !Matches(B, "a")
  {
    assert Lower("A")[0] == LowerChar('A') == 'a';
    assert Lower("B")[0] == LowerChar('B') == 'b';
    assert Lower("A") == "a" && Lower("B") == "b" && Lower("") == "";
    assert !("a" <= "b") && "b"[1..] == "";
    assert !Contains("b", "a");
  }

  /** Searching "a" among [B, A] keeps [A]. */
  lemma FilterExample()
    ensures Keep([B, A], MatchesQuery(Normalize("a"))) == [A]
  {
    NormalizeExample();
    MatchExample();
    var f := MatchesQuery("a");
    assert [B, A][1..] == [A] && [A][1..] == [];
    assert Keep([A], f) == [A];
  }

  /** Deleting the unknown id "3" from [B, A] keeps both notes. */
  lemma DeleteExample()
    ensures !HasId([B, A], "3")
    ensures WithoutId([B, A], "3") == [B, A]
  {
    forall i | 0 <= i < 2 ensures [B, A][i].id != "3" {
      assert [B, A][i].id[0] != "3"[0];
    }
    WithoutIdSpec([B, A], "3");
  }

  /** Load two notes in storage order, then search: the notes stay put. */
  method LoadAndSearch() {
    var vm := new NotepadViewModel();
    SortExample();
    vm.OnLoaded([A, B]);
    assert vm.uiState.notes == [B, A];
    vm.UpdateSearch("a");
    assert vm.uiState.notes == [B, A] && vm.saves == [];
    NormalizeExample();
    FilterExample();
    assert vm.FilteredNotes() == [A];
  }

  /** Deleting an unknown id still saves the shown notes. */
  method DeleteUnknown() {
    var vm := new NotepadViewModel();
    SortExample();
    vm.OnLoaded([A, B]);
    assert vm.uiState.notes == [B, A] && vm.saves == [];
    DeleteExample();
    vm.DeleteNote("3");
    assert vm.saves == [] + [WithoutId([B, A], "3")];
    assert vm.saves == [[B, A]];
  }

  /** A note created with a blank title is saved as "Untitled", in its sorted place. */
  method CreateBlankTitle() {
    var vm := new NotepadViewModel();
    SortExample();
    vm.OnLoaded([A, B]);
    assert vm.uiState.notes == [B, A] && vm.saves == [];
    CreateExample();
    vm.CreateNote("3", "", "x", 200);
    assert vm.saves == [] + [Sort([B, A] + [NewNote("3", "", "x", 200)])];
    assert vm.saves == [[B, C, A]];
  }
}
