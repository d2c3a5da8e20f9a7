// The dashboard never re-fetches the list after a change: it patches its own
// copy with the server's reply. These lemmas show that each patch, applied to
// what `GET /notes` returned, gives exactly what `GET /notes` would return
// after the change on the server.

module ListSync {
  import opened Basics
  import opened NoteEditor
  import opened NotesApi

  predicate DecreasingIds(s: seq<Note>) {
    forall i, j :: 0 <= i < j < |s| ==> s[i].id > s[j].id
  }

  /** `r` holds exactly the rows of the table, by decreasing id. */
  ghost predicate ListingOf(r: seq<Note>, rows: map<int, Note>) {
    && DecreasingIds(r)
    && (forall n :: n in r <==> n.id in rows && rows[n.id] == n)
  }

  lemma ListNotesIsListing(rows: map<int, Note>)
    requires KeyedById(rows)
    ensures ListingOf(ListNotes(rows), rows)
  {
    var r := ListNotes(rows);
    forall n: Note | n.id in rows && rows[n.id] == n
      ensures n in r
    {
      assert rows[n.id] in r;
    }
  }

  /** Two lists ordered by strictly decreasing id that hold the same notes
      are the same list. */
  lemma {:induction false} SameNotesSameList(a: seq<Note>, b: seq<Note>)
    requires DecreasingIds(a) && DecreasingIds(b)
    requires forall n :: n in a <==> n in b
    ensures a == b
    decreases |a|
  {
    if a != [] {
      assert a[0] in b;
      assert b[0] in a;
      forall n: Note
        ensures n in a[1..] <==> n in b[1..]
      {
        if n in a[1..] {
          var i :| 1 <= i < |a| && a[i] == n;
          assert n != a[0];
          assert n in b;
        }
        if n in b[1..] {
          var j :| 1 <= j < |b| && b[j] == n;
          assert n != b[0];
          assert n in a;
        }
      }
      SameNotesSameList(a[1..], b[1..]);
      assert a == [a[0]] + a[1..];
      assert b == [b[0]] + b[1..];
    } else if b != [] {
      HeadIsIn(b);
      assert false;
    }
  }

  lemma HeadIsIn(s: seq<Note>)
    requires s != []
    ensures s[0] in s
  {
  }

  /** The listing is determined by the table. */
  lemma ListingIsListNotes(r: seq<Note>, rows: map<int, Note>)
    requires KeyedById(rows) && ListingOf(r, rows)
    ensures r == ListNotes(rows)
  {
    ListNotesIsListing(rows);
    SameNotesSameList(r, ListNotes(rows));
  }

  lemma {:induction false} SubsequenceDecreasing(a: seq<Note>, b: seq<Note>)
    requires IsSubsequence(a, b) && DecreasingIds(b)
    ensures DecreasingIds(a)
    ensures forall n :: n in a ==> n in b
    decreases |b|
  {
    if a != [] {
      if a[0] == b[0] && IsSubsequence(a[1..], b[1..]) {
        SubsequenceDecreasing(a[1..], b[1..]);
        assert forall n :: n in a[1..] ==> n.id < a[0].id by {
          forall n | n in a[1..]
            ensures n.id < a[0].id
          {
            assert n in b[1..];
            var j :| 0 <= j < |b[1..]| && b[1..][j] == n;
            assert b[j + 1] == n;
          }
        }
        forall i, j | 0 <= i < j < |a|
          ensures a[i].id > a[j].id
        {
          assert a[j] == a[1..][j - 1];
          if i > 0 {
            assert a[i] == a[1..][i - 1];
          } else {
            assert a[j] in a[1..];
          }
        }
        forall n | n in a
          ensures n in b
        {
          if n != a[0] {
            assert n in a[1..] by {
              var i :| 0 <= i < |a| && a[i] == n;
              assert a[1..][i - 1] == n;
            }
          }
        }
      } else {
        SubsequenceDecreasing(a, b[1..]);
      }
    }
  }

  /** After a delete the server lists the remaining notes; the client's
      filtered copy is that list. */
  lemma DeleteKeepsListInSync(rows: map<int, Note>, id: int)
    requires KeyedById(rows)
    ensures KeyedById(rows - {id})
    ensures RemoveNote(ListNotes(rows), id) == ListNotes(rows - {id})
  {
    var l := ListNotes(rows);
    var r := RemoveNote(l, id);
    ListNotesIsListing(rows);
    SubsequenceDecreasing(r, l);
    ListingIsListNotes(r, rows - {id});
  }

  lemma PrependListing(rows: map<int, Note>, n: Note, l: seq<Note>)
    requires ListingOf(l, rows)
    requires forall k :: k in rows ==> k < n.id
    ensures ListingOf([n] + l, rows[n.id := n])
  {
    var r := [n] + l;
    forall i, j | 0 <= i < j < |r|
      ensures r[i].id > r[j].id
    {
      assert r[j] == l[j - 1];
      if i > 0 {
        assert r[i] == l[i - 1];
      } else {
        assert l[j - 1] in l;
      }
    }
    forall m: Note
      ensures m in r <==> m.id in rows[n.id := n] && rows[n.id := n][m.id] == m
    {
      if m in l {
        assert m.id in rows;
      }
    }
  }

  /** A new row has an id above every existing one, so the server lists it
      first: prepending the reply is the new listing. */
  lemma CreateKeepsListInSync(rows: map<int, Note>, n: Note)
    requires KeyedById(rows)
    requires forall k :: k in rows ==> k < n.id
    ensures KeyedById(rows[n.id := n])
    ensures [n] + ListNotes(rows) == ListNotes(rows[n.id := n])
  {
    ListNotesIsListing(rows);
    PrependListing(rows, n, ListNotes(rows));
    ListingIsListNotes([n] + ListNotes(rows), rows[n.id := n]);
  }

  lemma ReplaceListing(rows: map<int, Note>, n: Note, l: seq<Note>)
    requires KeyedById(rows) && ListingOf(l, rows) && n.id in rows
    ensures ListingOf(ReplaceNote(l, n), rows[n.id := n])
  {
    var r := ReplaceNote(l, n);
    var rows' := rows[n.id := n];
    assert DecreasingIds(r) by {
      forall i | 0 <= i < |r|
        ensures r[i].id == l[i].id
      {
      }
    }
    forall m: Note
      ensures m in r <==> m.id in rows' && rows'[m.id] == m
    {
      if m in r {
        var i :| 0 <= i < |r| && r[i] == m;
        assert l[i] in l;
      }
      if m.id in rows' && rows'[m.id] == m {
        assert rows[m.id] in l;
        var i :| 0 <= i < |l| && l[i] == rows[m.id];
        assert r[i] == m;
      }
    }
  }

  /** An update returns the stored row; swapping it into the client's copy
      where the id matches gives the new listing. */
  lemma UpdateKeepsListInSync(rows: map<int, Note>, n: Note)
    requires KeyedById(rows) && n.id in rows
    ensures KeyedById(rows[n.id := n])
    ensures ReplaceNote(ListNotes(rows), n) == ListNotes(rows[n.id := n])
  {
    var l := ListNotes(rows);
    var rows' := rows[n.id := n];
    assert KeyedById(rows');
    ListNotesIsListing(rows);
    ReplaceListing(rows, n, l);
    var r := ReplaceNote(l, n);
    assert ListingOf(r, rows');
    ListingIsListNotes(r, rows');
  }

  /** Storing an AI summary on the server and patching it into the
      client's copy give the same list. */
  lemma SummaryKeepsListInSync(rows: map<int, Note>, id: int, summary: string)
    requires KeyedById(rows) && id in rows
    ensures KeyedById(rows[id := rows[id].(summary := summary)])
    ensures PatchSummary(ListNotes(rows), id, summary) == ListNotes(rows[id := rows[id].(summary := summary)])
  {
    var l := ListNotes(rows);
    var n := rows[id].(summary := summary);
    assert PatchSummary(l, id, summary) == ReplaceNote(l, n);
    UpdateKeepsListInSync(rows, n);
  }

  /** An update of an unknown id answers with the id-0 placeholder, which
      matches no listed note: the client's copy stays as it is. */
  lemma UnknownUpdateLeavesList(rows: map<int, Note>)
    requires KeyedById(rows) && forall k :: k in rows ==> k >= 1
    ensures ReplaceNote(ListNotes(rows), Missing) == ListNotes(rows)
  {
    var l := ListNotes(rows);
    assert forall i :: 0 <= i < |l| ==> l[i].id != Missing.id;
  }

  /** A blank generated summary is stored by the server, but the client
      takes "" for a failure and keeps the old summary in its copy: the
      two lists then differ. */
  lemma EmptySummaryLeavesCopyStale(rows: map<int, Note>, id: int)
    requires KeyedById(rows) && id in rows && rows[id].summary != ""
    ensures KeyedById(rows[id := rows[id].(summary := "")])
    ensures ListNotes(rows) != ListNotes(rows[id := rows[id].(summary := "")])
  {
    var rows' := rows[id := rows[id].(summary := "")];
    assert KeyedById(rows');
    assert rows[id] in ListNotes(rows);
    assert rows[id] !in ListNotes(rows');
  }

  // The two halves of each request run back to back: the client's guard,
  // the backend's endpoint on the table, and the client's fold of the
  // reply into its screen. A client whose copy equals the listing keeps it
  // equal.

  method DeleteRoundTrip(t: NotesTable, s: Screen, confirmed: bool) returns (o: Outcome)
    requires t.Valid() && s.notes == ListNotes(t.rows)
    modifies t
    ensures t.Valid() && o.screen.notes == ListNotes(t.rows)
  {
    var target := DeleteTarget(s.editor, confirmed);
    if target.None? {
      return Outcome(s, None);
    }
    var id := target.value;
    DeleteKeepsListInSync(t.rows, id);
    var reply := t.Delete(id);
    o := AfterDelete(s, id, Got(reply));
  }

  method SaveRoundTrip(t: NotesTable, s: Screen) returns (o: Outcome)
    requires t.Valid() && s.notes == ListNotes(t.rows)
    modifies t
    ensures t.Valid() && o.screen.notes == ListNotes(t.rows)
  {
    var req := SaveTarget(s.editor);
    var data: Note;
    match req {
      case PutNote(id, title, text, summary) =>
        ghost var rows := t.rows;
        data := t.Update(id, NoteUpdate(Some(title), Some(text), Some(summary)));
        if id in rows {
          UpdateKeepsListInSync(rows, data);
        } else {
          UnknownUpdateLeavesList(rows);
        }
      case PostNote(title, text) =>
        ghost var rows := t.rows;
        data := t.Create(title, text);
        CreateKeepsListInSync(rows, data);
    }
    o := AfterSave(s, req, Got(data));
  }

  /** `generated` is the stripped reply text of the AI service, or None
      when the service fails (a status other than 200, or an exception).
      A failed service, or a note that is gone, makes the endpoint answer
      with an error body that has no `summary`, and nothing is stored. */
  method SummarizeRoundTrip(t: NotesTable, s: Screen, generated: Option<string>) returns (o: Outcome)
    requires t.Valid() && s.notes == ListNotes(t.rows)
    modifies t
    ensures t.Valid()
    ensures generated.None? ==> t.rows == old(t.rows) && o.screen == s
    ensures generated != Some("") ==> o.screen.notes == ListNotes(t.rows)
  {
    var req := SummarizeTarget(s.editor);
    match req {
      case SummarizeBlocked(notice) =>
        o := Outcome(s, Some(notice));
      case SummarizeAndStore(id, _) =>
        if generated.None? {
          o := AfterSummarize(s, req, Got(""));
        } else {
          ghost var rows := t.rows;
          var stored := t.StoreSummary(id, generated.value);
          if stored {
            SummaryKeepsListInSync(rows, id, generated.value);
          }
          o := AfterSummarize(s, req, Got(if stored then generated.value else ""));
        }
      case SummarizePreview(_) =>
        o := AfterSummarize(s, req, Got(generated.GetOr("")));
    }
  }
}
