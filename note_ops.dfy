/**
 * The lists the view model computes before it saves: the new note of
 * `createNote`, the edit of `updateNote`, the removal of `deleteNote`, the
 * flip of `togglePin`, and the match test of the search filter.
 */
module NoteOps {
  import opened NoteModel
  import opened Text
  import opened Lists
  import opened Ordering
  import opened Wrappers

  /** The title a blank title is replaced with. */
  const Untitled: string := "Untitled"

  predicate HasId(s: seq<Note>, id: string) {
    exists i :: 0 <= i < |s| && s[i].id == id
  }

  /** `indexOfFirst { it.id == id }`: the first position holding `id`, or -1. */
  function IndexOfFirst(s: seq<Note>, id: string): (r: int)
    ensures -1 <= r < |s|
    ensures r == -1 <==> !HasId(s, id)
    ensures r >= 0 ==> s[r].id == id && forall i :: 0 <= i < r ==> s[i].id != id
  {
    if s == [] then -1
    else if s[0].id == id then 0
    else
      var k := IndexOfFirst(s[1..], id);
      assert forall i :: 1 <= i < |s| ==> s[i] == s[1..][i - 1];
      if k == -1 then -1 else k + 1
  }

  /** The note `createNote` builds. */
  function NewNote(freshId: string, title: string, body: string, now: int): (n: Note)
    ensures n.id == freshId && n.body == body && !n.pinned && n.lastModified == now
    ensures !IsBlank(n.title)
    ensures IsBlank(title) ==> n.title == Untitled
    ensures !IsBlank(title) ==> n.title == title
  {
    assert !IsWhitespace(Untitled[0]);
    Note(freshId, IfBlank(title, Untitled), body, false, now)
  }

  /**
   * `updateNote`'s list before sorting: None when no note has `id`; otherwise
   * the first note with `id` gets the new title, body and time.
   */
  function Updated(s: seq<Note>, id: string, title: string, body: string, now: int): (r: Option<seq<Note>>)
    ensures r.None? <==> !HasId(s, id)
    ensures r.Some? ==> (
      var i := IndexOfFirst(s, id);
      && |r.value| == |s|
      && r.value[i].id == id
      && r.value[i].pinned == s[i].pinned
      && !IsBlank(r.value[i].title)
      && (IsBlank(title) ==> r.value[i].title == Untitled)
      && (!IsBlank(title) ==> r.value[i].title == title)
      && r.value[i].body == body
      && r.value[i].lastModified == now
      && forall j :: 0 <= j < |s| && j != i ==> r.value[j] == s[j])
  {
    var i := IndexOfFirst(s, id);
    assert !IsWhitespace(Untitled[0]);
    if i == -1 then None
    else Some(s[i := s[i].(title := IfBlank(title, Untitled), body := body, lastModified := now)])
  }

  /**
   * `togglePin`'s list before sorting: None when no note has `id`; otherwise
   * the first note with `id` has `pinned` flipped and its time refreshed.
   */
  function Toggled(s: seq<Note>, id: string, now: int): (r: Option<seq<Note>>)
    ensures r.None? <==> !HasId(s, id)
    ensures r.Some? ==> (
      var i := IndexOfFirst(s, id);
      && |r.value| == |s|
      && r.value[i] == Note(s[i].id, s[i].title, s[i].body, !s[i].pinned, now)
      && forall j :: 0 <= j < |s| && j != i ==> r.value[j] == s[j])
  {
    var i := IndexOfFirst(s, id);
    if i == -1 then None
    else Some(s[i := s[i].(pinned := !s[i].pinned, lastModified := now)])
  }

  /** The test `filterNot { it.id == id }` drops by. */
  function NotId(id: string): Note -> bool {
    (n: Note) => n.id != id
  }

  /** `deleteNote`'s list before sorting; see WithoutIdSpec. */
  function WithoutId(s: seq<Note>, id: string): seq<Note> {
    Keep(s, NotId(id))
  }

  /**
   * Deleting removes every note with `id` and keeps the others in order and
   * with their multiplicity; with no note carrying `id` the list is unchanged.
   */
  lemma WithoutIdSpec(s: seq<Note>, id: string)
    ensures IsSubseq(WithoutId(s, id), s)
    ensures !HasId(WithoutId(s, id), id)
    ensures forall n :: multiset(WithoutId(s, id))[n] == if n.id != id then multiset(s)[n] else 0
    ensures !HasId(s, id) ==> WithoutId(s, id) == s
  {
    KeepSubseq(s, NotId(id));
    KeepCount(s, NotId(id));
    if !HasId(s, id) { KeepAll(s, NotId(id)); }
    var r := WithoutId(s, id);
    if HasId(r, id) {
      var i :| 0 <= i < |r| && r[i].id == id;
      KeepMember(s, NotId(id), r[i]);
    }
  }

  /** The search text as it is matched: trimmed, then lower-cased. */
  function Normalize(query: string): (r: string)
    ensures |r| <= |query|
    ensures r == [] <==> IsBlank(query)
  {
    TrimEmptyIffBlank(query);
    Lower(Trim(query))
  }

  /** A note matches when its lower-cased title or body contains `needle`. */
  predicate Matches(n: Note, needle: string) {
    Contains(Lower(n.title), needle) || Contains(Lower(n.body), needle)
  }

  /** The test the search filter keeps notes by. */
  function MatchesQuery(needle: string): Note -> bool {
    n => Matches(n, needle)
  }

  /** The first position holding `id` is fixed by what lies before it. */
  lemma IndexOfFirstIs(s: seq<Note>, id: string, i: int)
    requires 0 <= i < |s| && s[i].id == id
    requires forall j :: 0 <= j < i ==> s[j].id != id
    ensures IndexOfFirst(s, id) == i
  {
  }

  /**
   * Toggling the same note twice restores its pin flag: the list comes back
   * with only the toggled note's time changed.
   */
  lemma ToggleTwice(s: seq<Note>, id: string, t1: int, t2: int)
    requires HasId(s, id)
    ensures Toggled(s, id, t1).Some?
    ensures var i := IndexOfFirst(s, id);
      Toggled(Toggled(s, id, t1).value, id, t2) == Some(s[i := s[i].(lastModified := t2)])
  {
    var i := IndexOfFirst(s, id);
    var s1 := s[i := s[i].(pinned := !s[i].pinned, lastModified := t1)];
    assert Toggled(s, id, t1) == Some(s1);
    forall j | 0 <= j < i ensures s1[j].id != id {
      assert s1[j] == s[j];
    }
    IndexOfFirstIs(s1, id, i);
    var s2 := s1[i := s1[i].(pinned := !s1[i].pinned, lastModified := t2)];
    assert Toggled(s1, id, t2) == Some(s2);
    assert s2 == s[i := s[i].(lastModified := t2)];
  }

  /** Applying the same edit twice gives the list one edit gives. */
  lemma UpdateTwice(s: seq<Note>, id: string, title: string, body: string, now: int)
    requires HasId(s, id)
    ensures Updated(s, id, title, body, now).Some?
    ensures Updated(Updated(s, id, title, body, now).value, id, title, body, now) == Updated(s, id, title, body, now)
  {
    var i := IndexOfFirst(s, id);
    var s1 := Updated(s, id, title, body, now).value;
    forall j | 0 <= j < i ensures s1[j].id != id {
      assert s1[j] == s[j];
    }
    IndexOfFirstIs(s1, id, i);
    assert IfBlank(IfBlank(title, Untitled), Untitled) == IfBlank(title, Untitled);
    assert s1[i := s1[i].(title := IfBlank(title, Untitled), body := body, lastModified := now)] == s1;
  }

  /** Deleting an id no note carries saves a permutation of the current notes. */
  lemma DeleteAbsentIsPermutation(s: seq<Note>, id: string)
    requires !HasId(s, id)
    ensures multiset(Sort(WithoutId(s, id))) == multiset(s)
  {
    WithoutIdSpec(s, id);
  }

  /** Deleting from a list already in canonical order saves the rest in the same order. */
  lemma DeleteFromSortedKeepsOrder(s: seq<Note>, id: string)
    requires Sorted(s)
    ensures Sort(WithoutId(s, id)) == WithoutId(s, id)
  {
    KeepSorted(s, NotId(id));
    SortOfSorted(WithoutId(s, id));
  }
}
