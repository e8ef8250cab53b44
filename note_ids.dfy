/**
 * Identifier uniqueness across the note list. The app relies on it (every
 * lookup is by id) but does not check it; these lemmas show which operations
 * keep it, given that `createNote` draws an id no note has yet.
 */
module NoteIds {
  import opened NoteModel
  import opened Ordering
  import opened NoteOps

  predicate UniqueIds(s: seq<Note>) {
    forall i, j :: 0 <= i < j < |s| ==> s[i].id != s[j].id
  }

  lemma {:induction false} UniqueCountsAtMostOne(s: seq<Note>)
    requires UniqueIds(s)
    ensures forall n :: multiset(s)[n] <= 1
  {
    if s != [] {
      var rest := s[1..];
      assert s == [s[0]] + rest;
      assert UniqueIds(rest) by {
        forall i, j | 0 <= i < j < |rest| ensures rest[i].id != rest[j].id {
          assert rest[i] == s[i + 1] && rest[j] == s[j + 1];
        }
      }
      UniqueCountsAtMostOne(rest);
    }
  }

  lemma TwoOccurrences(s: seq<Note>, i: int, j: int)
    requires 0 <= i < j < |s| && s[i] == s[j]
    ensures multiset(s)[s[i]] >= 2
  {
    assert s == s[..j] + s[j..];
    assert s[i] == s[..j][i];
    assert s[j] == s[j..][0];
  }

  /** In a list with unique ids, two of its notes sharing an id are the same note. */
  lemma SameIdSameNote(a: seq<Note>, x: Note, y: Note)
    requires UniqueIds(a) && x in a && y in a
    ensures x.id == y.id ==> x == y
  {
    var p :| 0 <= p < |a| && a[p] == x;
    var q :| 0 <= q < |a| && a[q] == y;
    assert p != q ==> x.id != y.id;
  }

  /** Any list whose notes all come from a list with unique ids has unique ids. */
  lemma UniqueOfSubMultiset(a: seq<Note>, b: seq<Note>)
    requires UniqueIds(a) && multiset(b) <= multiset(a)
    ensures UniqueIds(b)
  {
    UniqueCountsAtMostOne(a);
    forall i, j | 0 <= i < j < |b| ensures b[i].id != b[j].id {
      if b[i] == b[j] {
        TwoOccurrences(b, i, j);
      } else {
        assert b[i] in multiset(a) && b[j] in multiset(a);
        SameIdSameNote(a, b[i], b[j]);
      }
    }
  }

  lemma SortKeepsUniqueIds(s: seq<Note>)
    requires UniqueIds(s)
    ensures UniqueIds(Sort(s))
  {
    UniqueOfSubMultiset(s, Sort(s));
  }

  /** Creating a note with an id no note has keeps ids unique. */
  lemma CreateKeepsUniqueIds(s: seq<Note>, freshId: string, title: string, body: string, now: int)
    requires UniqueIds(s) && !HasId(s, freshId)
    ensures UniqueIds(Sort(s + [NewNote(freshId, title, body, now)]))
  {
    var t := s + [NewNote(freshId, title, body, now)];
    assert UniqueIds(t) by {
      forall i, j | 0 <= i < j < |t| ensures t[i].id != t[j].id {
        assert t[i] == s[i];
        if j < |s| { assert t[j] == s[j]; }
      }
    }
    SortKeepsUniqueIds(t);
  }

  lemma SameIdsKeepUniqueIds(a: seq<Note>, b: seq<Note>)
    requires UniqueIds(a) && |a| == |b|
    requires forall i :: 0 <= i < |a| ==> a[i].id == b[i].id
    ensures UniqueIds(b)
  {
  }

  /** Editing a note keeps ids unique. */
  lemma UpdateKeepsUniqueIds(s: seq<Note>, id: string, title: string, body: string, now: int)
    requires UniqueIds(s) && HasId(s, id)
    ensures Updated(s, id, title, body, now).Some?
    ensures UniqueIds(Sort(Updated(s, id, title, body, now).value))
  {
    var u := Updated(s, id, title, body, now).value;
    var i := IndexOfFirst(s, id);
    forall j | 0 <= j < |s| ensures s[j].id == u[j].id {
      if j != i { assert u[j] == s[j]; }
    }
    SameIdsKeepUniqueIds(s, u);
    SortKeepsUniqueIds(u);
  }

  /** Toggling a pin keeps ids unique. */
  lemma ToggleKeepsUniqueIds(s: seq<Note>, id: string, now: int)
    requires UniqueIds(s) && HasId(s, id)
    ensures Toggled(s, id, now).Some?
    ensures UniqueIds(Sort(Toggled(s, id, now).value))
  {
    var u := Toggled(s, id, now).value;
    var i := IndexOfFirst(s, id);
    forall j | 0 <= j < |s| ensures s[j].id == u[j].id {
      if j != i { assert u[j] == s[j]; }
    }
    SameIdsKeepUniqueIds(s, u);
    SortKeepsUniqueIds(u);
  }

  /** Deleting keeps ids unique. */
  lemma DeleteKeepsUniqueIds(s: seq<Note>, id: string)
    requires UniqueIds(s)
    ensures UniqueIds(Sort(WithoutId(s, id)))
  {
    WithoutIdSpec(s, id);
    var r := Sort(WithoutId(s, id));
    assert multiset(r) <= multiset(s) by {
      forall n ensures multiset(r)[n] <= multiset(s)[n] {
      }
    }
    UniqueOfSubMultiset(s, r);
  }

  /** With unique ids, the only note carrying `id` is the first one. */
  lemma IndexOfUnique(s: seq<Note>, k: int)
    requires UniqueIds(s) && 0 <= k < |s|
    ensures IndexOfFirst(s, s[k].id) == k
  {
    IndexOfFirstIs(s, s[k].id, k);
  }

  /** Replacing one element swaps it for the new one in the list's multiset. */
  lemma UpdateMultiset(s: seq<Note>, i: int, v: Note)
    requires 0 <= i < |s|
    ensures multiset(s[i := v]) == multiset(s) - multiset{s[i]} + multiset{v}
  {
    assert s == s[..i] + [s[i]] + s[i + 1..];
    assert s[i := v] == s[..i] + [v] + s[i + 1..];
  }

  /**
   * In a list with unique ids, toggling by the id of one of its notes swaps
   * exactly that note for its toggled copy.
   */
  lemma ToggleMember(s: seq<Note>, x: Note, now: int)
    requires UniqueIds(s) && x in s
    ensures Toggled(s, x.id, now).Some?
    ensures multiset(Toggled(s, x.id, now).value)
      == multiset(s) - multiset{x} + multiset{x.(pinned := !x.pinned, lastModified := now)}
  {
    var k :| 0 <= k < |s| && s[k] == x;
    IndexOfUnique(s, k);
    UpdateMultiset(s, k, x.(pinned := !x.pinned, lastModified := now));
  }

  lemma AddThenRemove(m: multiset<Note>, y: Note, z: Note)
    ensures m + multiset{y} - multiset{y} + multiset{z} == m + multiset{z}
  {
    assert m + multiset{y} - multiset{y} == m;
  }

  /**
   * Toggling a note's pin twice, with the repository's reload in between,
   * saves the original notes back with only that note's time changed: its
   * pin flag is restored.
   */
  lemma ToggleTwiceAcrossReload(s: seq<Note>, id: string, t1: int, t2: int)
    requires UniqueIds(s) && HasId(s, id)
    ensures Toggled(s, id, t1).Some?
    ensures Toggled(Sort(Toggled(s, id, t1).value), id, t2).Some?
    ensures var i := IndexOfFirst(s, id);
      multiset(Sort(Toggled(Sort(Toggled(s, id, t1).value), id, t2).value))
        == multiset(s[i := s[i].(lastModified := t2)])
  {
    var i := IndexOfFirst(s, id);
    var x := s[i];
    var y := x.(pinned := !x.pinned, lastModified := t1);
    var z := x.(lastModified := t2);
    ToggleMember(s, x, t1);
    ToggleKeepsUniqueIds(s, id, t1);
    var s1 := Sort(Toggled(s, id, t1).value);
    var m1 := multiset(s) - multiset{x} + multiset{y};
    assert multiset(s1) == m1;
    assert y in s1 by { assert y in m1; }
    ToggleMember(s1, y, t2);
    assert y.id == id && y.(pinned := !y.pinned, lastModified := t2) == z;
    var u2 := Toggled(s1, id, t2).value;
    var m2 := m1 - multiset{y} + multiset{z};
    assert multiset(u2) == m2;
    assert multiset(Sort(u2)) == m2;
    UpdateMultiset(s, i, z);
    AddThenRemove(multiset(s) - multiset{x}, y, z);
  }
}
