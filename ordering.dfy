/**
 * The canonical order of notes: pinned notes first, then the most recently
 * modified first, ties kept in their input order (Kotlin's `sortedWith` is a
 * stable sort).
 */
module Ordering {
  import opened NoteModel
  import opened Lists

  /**
   * `noteComparator()`: `compareByDescending { pinned }` then
   * `thenByDescending { lastModified }`. Only the sign of the result matters.
   */
  function Compare(a: Note, b: Note): (c: int)
    ensures -1 <= c <= 1
    ensures c < 0 <==> (a.pinned && !b.pinned) || (a.pinned == b.pinned && a.lastModified > b.lastModified)
    ensures c == 0 <==> a.pinned == b.pinned && a.lastModified == b.lastModified
  {
    if a.pinned != b.pinned then (if a.pinned then -1 else 1)
    else if a.lastModified != b.lastModified then (if a.lastModified > b.lastModified then -1 else 1)
    else 0
  }

  /** Every pair of notes appears in an order the comparator allows. */
  predicate Sorted(s: seq<Note>) {
    forall i, j :: 0 <= i < j < |s| ==> Compare(s[i], s[j]) <= 0
  }

  /** The notes that tie with `k` on both sort keys. */
  function Tie(k: Note): Note -> bool {
    n => Compare(n, k) == 0
  }

  /** The comparator is transitive, strictly so when its first step is strict. */
  lemma CompareTransitive(a: Note, b: Note, c: Note)
    ensures Compare(a, b) <= 0 && Compare(b, c) <= 0 ==> Compare(a, c) <= 0
    ensures Compare(a, b) < 0 && Compare(b, c) <= 0 ==> Compare(a, c) < 0
  {
  }

  /** The comparator is total: of two notes, one may precede the other. */
  lemma CompareTotal(a: Note, b: Note)
    ensures Compare(a, b) <= 0 || Compare(b, a) < 0
  {
  }

  lemma SortedTail(s: seq<Note>)
    requires Sorted(s) && s != []
    ensures Sorted(s[1..])
    ensures forall i :: 0 <= i < |s[1..]| ==> Compare(s[0], s[1..][i]) <= 0
  {
    forall i, j | 0 <= i < j < |s[1..]| ensures Compare(s[1..][i], s[1..][j]) <= 0 {
      assert s[1..][i] == s[i + 1] && s[1..][j] == s[j + 1];
    }
    forall i | 0 <= i < |s[1..]| ensures Compare(s[0], s[1..][i]) <= 0 {
      assert s[1..][i] == s[i + 1];
    }
  }

  lemma SortedCons(x: Note, s: seq<Note>)
    requires Sorted(s)
    requires forall i :: 0 <= i < |s| ==> Compare(x, s[i]) <= 0
    ensures Sorted([x] + s)
  {
    var r := [x] + s;
    forall i, j | 0 <= i < j < |r| ensures Compare(r[i], r[j]) <= 0 {
      assert r[j] == s[j - 1];
      if i > 0 { assert r[i] == s[i - 1]; }
    }
  }

  /**
   * Inserts `x` into `s` before the first note that must come after it, so
   * that it follows every note it ties with.
   */
  function Insert(x: Note, s: seq<Note>): (r: seq<Note>)
    ensures multiset(r) == multiset(s) + multiset{x}
  {
    if s == [] then [x]
    else if Compare(x, s[0]) < 0 then [x] + s
    else
      assert s == [s[0]] + s[1..];
      [s[0]] + Insert(x, s[1..])
  }

  /** Inserting into a sorted list keeps it sorted. */
  lemma {:induction false} InsertSorted(x: Note, s: seq<Note>)
    requires Sorted(s)
    ensures Sorted(Insert(x, s))
  {
    if s == [] {
    } else if Compare(x, s[0]) < 0 {
      SortedTail(s);
      forall i | 0 <= i < |s| ensures Compare(x, s[i]) <= 0 {
        if i > 0 {
          assert s[i] == s[1..][i - 1];
          CompareTransitive(x, s[0], s[i]);
        }
      }
      SortedCons(x, s);
    } else {
      SortedTail(s);
      var tail := s[1..];
      var rest := Insert(x, tail);
      InsertSorted(x, tail);
      forall i | 0 <= i < |rest| ensures Compare(s[0], rest[i]) <= 0 {
        var n := rest[i];
        assert n in multiset(rest);
        if n == x {
          CompareTotal(x, s[0]);
        } else {
          assert n in multiset(tail);
          var j :| 0 <= j < |tail| && tail[j] == n;
        }
      }
      SortedCons(s[0], rest);
    }
  }

  /** `sortedWith(noteComparator())`, as a stable insertion sort. */
  function Sort(s: seq<Note>): (r: seq<Note>)
    ensures |r| == |s|
    ensures Sorted(r)
    ensures multiset(r) == multiset(s)
  {
    if s == [] then []
    else
      var init := s[..|s| - 1];
      assert s == init + [s[|s| - 1]];
      var sorted := Sort(init);
      InsertSorted(s[|s| - 1], sorted);
      var r := Insert(s[|s| - 1], sorted);
      assert |r| == |multiset(r)| == |multiset(s)|;
      r
  }

  /** Sortedness spelled out: pinned notes first, and within each group newest first. */
  lemma SortedMeansPinnedFirstThenNewest(s: seq<Note>)
    ensures Sorted(s) <==> forall i, j :: 0 <= i < j < |s| ==>
      (s[j].pinned ==> s[i].pinned) &&
      (s[i].pinned == s[j].pinned ==> s[i].lastModified >= s[j].lastModified)
  {
  }

  /** Inserting a note that ties with `k` appends it to the notes tying with `k`. */
  lemma {:induction false} InsertStable(x: Note, s: seq<Note>, k: Note)
    requires Sorted(s)
    ensures Keep(Insert(x, s), Tie(k)) == Keep(s, Tie(k)) + (if Tie(k)(x) then [x] else [])
  {
    var f := Tie(k);
    if s == [] {
      assert Insert(x, s) == [x];
      assert Keep([x], f) == (if f(x) then [x] else []) + Keep([x][1..], f);
    } else if Compare(x, s[0]) < 0 {
      InsertBeforeAllStable(x, s, k);
    } else {
      var tail := s[1..];
      SortedTail(s);
      InsertStable(x, tail, k);
      InsertAfterFirstStable(x, s, k);
    }
  }

  /** When `x` goes after the first note, the first note stays first. */
  lemma InsertAfterFirstStable(x: Note, s: seq<Note>, k: Note)
    requires s != [] && Compare(x, s[0]) >= 0
    requires Keep(Insert(x, s[1..]), Tie(k)) == Keep(s[1..], Tie(k)) + (if Tie(k)(x) then [x] else [])
    ensures Keep(Insert(x, s), Tie(k)) == Keep(s, Tie(k)) + (if Tie(k)(x) then [x] else [])
  {
    var f := Tie(k);
    var tail := s[1..];
    var r := [s[0]] + Insert(x, tail);
    var head := if f(s[0]) then [s[0]] else [];
    var last := if f(x) then [x] else [];
    assert Insert(x, s) == r;
    assert r[0] == s[0] && r[1..] == Insert(x, tail);
    assert Keep(r, f) == head + Keep(Insert(x, tail), f);
    assert Keep(Insert(x, tail), f) == Keep(tail, f) + last;
    assert Keep(s, f) == head + Keep(tail, f);
    assert head + (Keep(tail, f) + last) == (head + Keep(tail, f)) + last;
  }

  /** When `x` goes first, no note of the sorted `s` ties with it. */
  lemma InsertBeforeAllStable(x: Note, s: seq<Note>, k: Note)
    requires Sorted(s) && s != [] && Compare(x, s[0]) < 0
    ensures Keep(Insert(x, s), Tie(k)) == Keep(s, Tie(k)) + (if Tie(k)(x) then [x] else [])
  {
    var f := Tie(k);
    var r := [x] + s;
    assert Insert(x, s) == r && r[0] == x && r[1..] == s;
    assert Keep(r, f) == (if f(x) then [x] else []) + Keep(s, f);
    if f(x) {
      SortedTail(s);
      forall i | 0 <= i < |s| ensures !f(s[i]) {
        if i > 0 {
          assert s[i] == s[1..][i - 1];
          CompareTransitive(x, s[0], s[i]);
        }
      }
      KeepNone(s, f);
    }
  }

  lemma {:induction false} KeepNone(s: seq<Note>, f: Note -> bool)
    requires forall i :: 0 <= i < |s| ==> !f(s[i])
    ensures Keep(s, f) == []
  {
    if s != [] {
      KeepNone(s[1..], f);
    }
  }

  /**
   * The sort is stable: the notes that tie with `k` on both keys appear in
   * the result exactly as they appear in the input.
   */
  lemma {:induction false} SortStable(s: seq<Note>, k: Note)
    ensures Keep(Sort(s), Tie(k)) == Keep(s, Tie(k))
  {
    if s != [] {
      var init, last := s[..|s| - 1], s[|s| - 1];
      assert s == init + [last];
      SortStable(init, k);
      InsertStable(last, Sort(init), k);
      KeepAppend(init, [last], Tie(k));
    }
  }

  lemma SortedPrefix(s: seq<Note>, x: Note)
    requires Sorted(s + [x])
    ensures Sorted(s)
  {
    forall i, j | 0 <= i < j < |s| ensures Compare(s[i], s[j]) <= 0 {
      assert s[i] == (s + [x])[i] && s[j] == (s + [x])[j];
    }
  }

  /** Inserting a note that may come last into a sorted list appends it. */
  lemma {:induction false} InsertLast(x: Note, s: seq<Note>)
    requires Sorted(s + [x])
    ensures Insert(x, s) == s + [x]
  {
    if s != [] {
      var sx := s + [x];
      assert sx[0] == s[0] && sx[|s|] == x;
      assert Compare(s[0], x) <= 0;
      assert sx[1..] == s[1..] + [x];
      SortedTail(sx);
      InsertLast(x, s[1..]);
      assert Insert(x, s) == [s[0]] + Insert(x, s[1..]);
    }
  }

  /** Sorting an already sorted list changes nothing. */
  lemma {:induction false} SortOfSorted(s: seq<Note>)
    requires Sorted(s)
    ensures Sort(s) == s
  {
    if s != [] {
      var init, last := s[..|s| - 1], s[|s| - 1];
      assert s == init + [last];
      SortedPrefix(init, last);
      InsertLast(last, init);
      SortOfSorted(init);
    }
  }

  /** Sorting is idempotent. */
  lemma SortIdempotent(s: seq<Note>)
    ensures Sort(Sort(s)) == Sort(s)
  {
    SortOfSorted(Sort(s));
  }

  /** Filtering a sorted list leaves it sorted. */
  lemma {:induction false} KeepSorted(s: seq<Note>, f: Note -> bool)
    requires Sorted(s)
    ensures Sorted(Keep(s, f))
  {
    if s != [] {
      KeepSorted(s[1..], f);
      if f(s[0]) {
        var rest := Keep(s[1..], f);
        forall n | n in rest ensures Compare(s[0], n) <= 0 {
          KeepMember(s[1..], f, n);
        }
      }
    }
  }

  lemma KeepSortedIfSorted(s: seq<Note>, f: Note -> bool)
    ensures Sorted(s) ==> Sorted(Keep(s, f))
  {
    if Sorted(s) {
      KeepSorted(s, f);
    }
  }
}
