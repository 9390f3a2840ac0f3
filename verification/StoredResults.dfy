// The file in which the automatic updater keeps the date when the offered
// update last changed, over any number of runs and failed writes.

module StoredResults {
  import opened Common
  import opened Autoupdater

  /** Results as they were noted, and whether the file could be read and
      written then. */
  datatype Note = Note(results: PollResults, readable: bool, writable: bool)

  /** Notes j and k are about the same update. */
  predicate About(notes: seq<Note>, j: nat, k: nat) {
    && j < |notes| && k < |notes|
    && notes[j].results.refspec == notes[k].results.refspec && notes[j].results.id == notes[k].results.id
  }

  /** Note j would leave in the file what note k wrote. */
  predicate Keeps(notes: seq<Note>, j: nat, k: nat) {
    About(notes, j, k) && notes[j].readable
  }

  /** What the file holds after all of these. */
  function StoredBy(notes: seq<Note>): Option<PollResults> {
    if notes == [] then None else
    var before, last := StoredBy(notes[..|notes|-1]), notes[|notes|-1];
    if last.writable && (Differs(before, last.results) || !last.readable) then Some(last.results) else before
  }

  /** Which of them that is. */
  function StoredFrom(notes: seq<Note>): Option<nat> {
    if notes == [] then None else
    var n := |notes| - 1;
    var before := StoredFrom(notes[..n]);
    if notes[n].writable && (before.None? || !Keeps(notes, n, before.value)) then Some(n) else before
  }

  lemma {:induction false} StoredIsFrom(notes: seq<Note>)
    ensures StoredFrom(notes).Some? ==> StoredFrom(notes).value < |notes|
    ensures StoredBy(notes)
         == if StoredFrom(notes).Some? then Some(notes[StoredFrom(notes).value].results) else None
  {
    if notes != [] {
      StoredIsFrom(notes[..|notes|-1]);
    }
  }

  /** The note whose date counts after all of these. */
  function CountedFrom(notes: seq<Note>): (k: nat)
    requires notes != []
    ensures k < |notes|
  {
    var n := |notes| - 1;
    var before := StoredFrom(notes[..n]);
    if before.Some? && Keeps(notes, n, before.value) then before.value else n
  }

  lemma {:induction false} OneMoreNote(notes: seq<Note>, note: Note)
    ensures (var anew := Differs(StoredBy(notes), note.results) || !note.readable;
             && StoredBy(notes + [note]) == (if note.writable && anew then Some(note.results) else StoredBy(notes))
             && Some((notes + [note])[CountedFrom(notes + [note])].results)
                == if anew then Some(note.results) else StoredBy(notes))
  {
    StoredIsFrom(notes);
    assert (notes + [note])[..|notes|] == notes;
  }

  /** Note k could not read the file, or the last note before it that could be
      written, if there is one, is about another update. */
  ghost predicate ChangesFile(notes: seq<Note>, k: nat)
    requires k < |notes|
  {
    forall j :: 0 <= j < k && LastWritten(notes, j, k) ==> !Keeps(notes, k, j)
  }

  ghost predicate LastWritten(notes: seq<Note>, j: nat, k: nat)
    requires j < k <= |notes|
  {
    notes[j].writable && forall i :: j < i < k ==> !notes[i].writable
  }

  lemma {:induction false} WrittenAlike(s: seq<Note>, t: seq<Note>, j: nat, k: nat)
    requires j < k <= |s| && k <= |t| && s[..k] == t[..k]
    ensures LastWritten(s, j, k) <==> LastWritten(t, j, k)
  {
    assert forall i :: 0 <= i < k ==> s[i] == s[..k][i] && t[i] == t[..k][i];
  }

  /** All notes after k that could be written keep it. */
  ghost predicate SameFrom(notes: seq<Note>, k: nat)
    requires k < |notes|
  {
    forall j :: k < j < |notes| && notes[j].writable ==> Keeps(notes, j, k)
  }

  ghost predicate StartsStretch(notes: seq<Note>, k: nat) {
    k < |notes| && notes[k].writable && SameFrom(notes, k) && ChangesFile(notes, k)
  }

  ghost predicate NoneWritten(notes: seq<Note>) {
    forall j :: 0 <= j < |notes| ==> !notes[j].writable
  }

  lemma {:induction false} StretchGoesOn(notes: seq<Note>, k: nat, note: Note)
    requires StartsStretch(notes, k) && (note.writable ==> Keeps(notes + [note], |notes|, k))
    ensures StartsStretch(notes + [note], k)
  {
    forall j | 0 <= j < k && LastWritten(notes + [note], j, k) ensures !Keeps(notes + [note], k, j) {
      assert (notes + [note])[..k] == notes[..k];
      WrittenAlike(notes, notes + [note], j, k);
    }
  }

  lemma {:induction false} StretchStarts(notes: seq<Note>, note: Note, k: nat)
    requires note.writable
    requires StartsStretch(notes, k) ==> !Keeps(notes + [note], |notes|, k)
    requires !StartsStretch(notes, k) ==> NoneWritten(notes)
    ensures StartsStretch(notes + [note], |notes|)
  {
    var more := notes + [note];
    forall j | 0 <= j < |notes| && LastWritten(more, j, |notes|) ensures !Keeps(more, |notes|, j) {
      assert more[j] == notes[j];
      if StartsStretch(notes, k) {
        assert more[k] == notes[k] && k <= j && (j > k ==> Keeps(notes, j, k));
      }
    }
  }

  /** The file holds the start of the latest stretch of notes about one update,
      leaving aside those that could not be written. */
  lemma {:induction false} StoredStartsStretch(notes: seq<Note>)
    ensures StoredFrom(notes).Some? ==> StartsStretch(notes, StoredFrom(notes).value)
    ensures StoredFrom(notes).None? ==> NoneWritten(notes)
  {
    if notes != [] {
      var n := |notes| - 1;
      var earlier, note := notes[..n], notes[n];
      assert notes == earlier + [note];
      StoredStartsStretch(earlier);
      var before := StoredFrom(earlier);
      if before.Some? && (note.writable ==> Keeps(notes, n, before.value)) {
        StretchGoesOn(earlier, before.value, note);
      } else if note.writable {
        StretchStarts(earlier, note, if before.Some? then before.value else 0);
      }
    }
  }

  lemma {:induction false} SomeLastWritten(notes: seq<Note>, k: nat, m: nat) returns (j: nat)
    requires k < m <= |notes| && notes[k].writable
    ensures k <= j < m && LastWritten(notes, j, m)
    decreases m
  {
    if notes[m - 1].writable {
      j := m - 1;
    } else {
      j := SomeLastWritten(notes, k, m - 1);
    }
  }

  lemma {:induction false} OneStretch(notes: seq<Note>, k: nat, m: nat)
    requires StartsStretch(notes, k) && StartsStretch(notes, m)
    ensures k == m
  {
    if k < m {
      var j := SomeLastWritten(notes, k, m);
    } else if m < k {
      var j := SomeLastWritten(notes, m, k);
    }
  }

  lemma {:induction false} StoredFromIff(notes: seq<Note>, k: nat)
    ensures StoredFrom(notes) == Some(k) <==> StartsStretch(notes, k)
    ensures StartsStretch(notes, k) ==> StoredBy(notes) == Some(notes[k].results)
  {
    StoredIsFrom(notes);
    StoredStartsStretch(notes);
    if StartsStretch(notes, k) && StoredFrom(notes).Some? {
      OneStretch(notes, k, StoredFrom(notes).value);
    }
  }

  /** The date that counts is that of a note about the same update as the last
      one: the last one itself, if what could be written in front of it was
      about another update or cannot be read, and otherwise the note that the
      file holds. */
  lemma {:induction false} CountedFromIff(notes: seq<Note>, k: nat)
    requires k < |notes|
    ensures CountedFrom(notes) == k <==>
              (var n := |notes| - 1;
               || (k == n && ChangesFile(notes, n))
               || (k < n && StartsStretch(notes[..n], k) && Keeps(notes, n, k)))
  {
    var n := |notes| - 1;
    var earlier := notes[..n];
    StoredStartsStretch(earlier);
    if k < n {
      StoredFromIff(earlier, k);
    }
    FileBefore(notes, n);
  }

  lemma {:induction false} FileBefore(notes: seq<Note>, n: nat)
    requires n == |notes| - 1
    ensures ChangesFile(notes, n) <==>
              (var before := StoredFrom(notes[..n]); before.None? || !Keeps(notes, n, before.value))
  {
    var earlier := notes[..n];
    var before := StoredFrom(earlier);
    StoredStartsStretch(earlier);
    if before.Some? {
      var j := SomeLastWritten(notes, before.value, n);
      assert earlier[j] == notes[j] && (j > before.value ==> Keeps(earlier, j, before.value));
      forall i | 0 <= i < n && LastWritten(notes, i, n) ensures i == j {
      }
    } else {
      assert forall j :: 0 <= j < n ==> notes[j] == earlier[j];
    }
  }

  /** The latest stretch of notes about one update starts at k. */
  ghost predicate ChangedAt(notes: seq<Note>, k: nat) {
    && k < |notes|
    && (forall j :: k <= j < |notes| ==> About(notes, j, k))
    && (k > 0 ==> !About(notes, k - 1, k))
  }

  /** Since note k the file could be read whenever that mattered: before it was
      written, and for the latest note. */
  ghost predicate ReadSince(notes: seq<Note>, k: nat) {
    forall j :: k < j < |notes| && (notes[j].writable || j == |notes| - 1) ==> notes[j].readable
  }

  /** The date that counts is when the noted update last changed exactly if that
      was written, or is the latest note, could be read ever since, and what
      could last be written before is about another update or could not be
      read. */
  lemma {:induction false} CountsFromChangeIff(notes: seq<Note>, k: nat)
    requires ChangedAt(notes, k)
    ensures CountedFrom(notes) == k <==>
              (notes[k].writable || k == |notes| - 1) && ReadSince(notes, k) && ChangesFile(notes, k)
  {
    var n := |notes| - 1;
    CountedFromIff(notes, k);
    if k < n {
      SameChange(notes, k, n);
      assert About(notes, n, k);
    }
  }

  lemma {:induction false} SameChange(notes: seq<Note>, k: nat, n: nat)
    requires ChangedAt(notes, k) && k < n < |notes|
    ensures StartsStretch(notes[..n], k) <==>
              && notes[k].writable && ChangesFile(notes, k)
              && forall j :: k < j < n && notes[j].writable ==> notes[j].readable
  {
    var earlier := notes[..n];
    assert earlier[..k] == notes[..k];
    forall j | 0 <= j < k ensures LastWritten(earlier, j, k) <==> LastWritten(notes, j, k) {
      WrittenAlike(earlier, notes, j, k);
    }
    assert forall j :: 0 <= j < n ==> (About(earlier, j, k) <==> About(notes, j, k));
  }

  lemma {:induction false} SomeChange(notes: seq<Note>) returns (k: nat)
    requires notes != []
    ensures ChangedAt(notes, k)
  {
    var n := |notes| - 1;
    if n == 0 || !About(notes, n - 1, n) {
      k := n;
    } else {
      var earlier := notes[..n];
      k := SomeChange(earlier);
      assert forall j :: 0 <= j < n ==> (About(notes, j, k) <==> About(earlier, j, k));
      assert About(notes, n - 1, k);
    }
  }

  /** When every read and write works, the date that counts is just when the
      noted update last changed. */
  lemma {:induction false} CountsFromLastChangeIff(notes: seq<Note>, k: nat)
    requires notes != [] && forall j :: 0 <= j < |notes| ==> notes[j].readable && notes[j].writable
    ensures CountedFrom(notes) == k <==> ChangedAt(notes, k)
  {
    var change := SomeChange(notes);
    WrittenChange(notes, change);
    if ChangedAt(notes, k) {
      WrittenChange(notes, k);
    }
  }

  lemma {:induction false} WrittenChange(notes: seq<Note>, k: nat)
    requires ChangedAt(notes, k) && forall j :: 0 <= j < |notes| ==> notes[j].readable && notes[j].writable
    ensures CountedFrom(notes) == k
  {
    if k > 0 {
      assert notes[k - 1].writable;
    }
    CountsFromChangeIff(notes, k);
  }

  // ------------------------------------------------------------ two examples

  /** A file that cannot be read makes the date start anew. */
  lemma {:induction false} UnreadableStartsAnew(x: Note, y: Note)
    requires SamePair(x.results, y.results) && !y.readable
    ensures ChangedAt([x, y], 0) && CountedFrom([x, y]) == 1
  {
    assert [x, y][..1] == [x] && [x][..0] == [];
  }

  /** An update that could not be written leaves the date of the one before,
      which counts again when that one comes back. */
  lemma {:induction false} UnwrittenIsForgotten(x: Note, y: Note, z: Note)
    requires SamePair(x.results, z.results) && !SamePair(x.results, y.results)
    requires x.writable && !y.writable && z.readable
    ensures ChangedAt([x, y, z], 2) && CountedFrom([x, y, z]) == 0
  {
    assert [x, y, z][..2] == [x, y] && [x, y][..1] == [x] && [x][..0] == [];
    assert StoredFrom([x]) == Some(0) && StoredFrom([x, y]) == Some(0);
  }
}
